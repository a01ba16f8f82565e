/**
 * The debug render-target selector of `App` (Code/engine.h): an index chosen
 * in the debug UI picks which framebuffer attachment is shown on screen.
 * Attachment handles are opaque GL names.
 */
module RenderTargets {
  import opened Bits
  import opened Results

  /** The attachment handles of a `FrameBuffer` (Code/FrameBuffer.h), and its own GL name. */
  datatype FrameBuffer = FrameBuffer(
    albedo: uint32, specular: uint32, normals: uint32, position: uint32,
    depth: uint32, light: uint32, bloom: uint32, final: uint32, handle: uint32)

  /** The attachments the selector can show, in the order of the name table. */
  datatype Attachment = Final | Specular | Normals | Position | Albedo | Depth

  /** `renderTargets`: the label shown for each selector index. */
  const RENDER_TARGET_NAMES: seq<string> := ["FINAL", "SPECULAR", "NORMALS", "POSITION", "ALBEDO", "DEPTH"]

  /** The initial value of `currentRenderTarget`. */
  const DEFAULT_RENDER_TARGET: int := 0

  /** The attachment a label stands for; an unknown label stands for none. */
  function AttachmentNamed(name: string): (r: Option<Attachment>)
    ensures r.Some? <==> name in RENDER_TARGET_NAMES
  {
    if name == "FINAL" then Some(Final)
    else if name == "SPECULAR" then Some(Specular)
    else if name == "NORMALS" then Some(Normals)
    else if name == "POSITION" then Some(Position)
    else if name == "ALBEDO" then Some(Albedo)
    else if name == "DEPTH" then Some(Depth)
    else None
  }

  /** The handle of one attachment of a framebuffer. */
  function Handle(fb: FrameBuffer, a: Attachment): uint32
  {
    match a
    case Final => fb.final
    case Specular => fb.specular
    case Normals => fb.normals
    case Position => fb.position
    case Albedo => fb.albedo
    case Depth => fb.depth
  }

  /**
   * `App::CurrentRenderTarget`: indices 1 to 4 pick an attachment of the
   * lighting framebuffer, index 5 picks the depth attachment of the geometry
   * buffer or of the lighting framebuffer according to `geometryDepth`, and
   * every other index (0, negative, or above 5) falls to the final image.
   */
  function CurrentRenderTarget(currentRenderTarget: int, geometryDepth: bool,
                               frameBuffer: FrameBuffer, gBuffer: FrameBuffer): (r: uint32)
    ensures currentRenderTarget == 1 ==> r == frameBuffer.specular
    ensures currentRenderTarget == 2 ==> r == frameBuffer.normals
    ensures currentRenderTarget == 3 ==> r == frameBuffer.position
    ensures currentRenderTarget == 4 ==> r == frameBuffer.albedo
    ensures currentRenderTarget == 5 ==> r == (if geometryDepth then gBuffer.depth else frameBuffer.depth)
    ensures !(1 <= currentRenderTarget <= 5) ==> r == frameBuffer.final
  {
    var buffer := if geometryDepth then gBuffer else frameBuffer;
    match currentRenderTarget
    case 1 => frameBuffer.specular
    case 2 => frameBuffer.normals
    case 3 => frameBuffer.position
    case 4 => frameBuffer.albedo
    case 5 => buffer.depth
    case _ => frameBuffer.final
  }

  /**
   * The selection agrees with the label table: for every index of the table,
   * the selected handle is the attachment its label names, taken from the
   * geometry buffer only for a depth view with `geometryDepth` set.
   */
  lemma SelectionMatchesName(i: int, geometryDepth: bool, frameBuffer: FrameBuffer, gBuffer: FrameBuffer)
    requires 0 <= i < |RENDER_TARGET_NAMES|
    ensures AttachmentNamed(RENDER_TARGET_NAMES[i]).Some?
    ensures var a := AttachmentNamed(RENDER_TARGET_NAMES[i]).value;
            CurrentRenderTarget(i, geometryDepth, frameBuffer, gBuffer)
            == Handle(if a == Depth && geometryDepth then gBuffer else frameBuffer, a)
  {
  }

  /** The labels are distinct, so each index shows a different attachment. */
  lemma NamesDistinct(i: int, j: int)
    requires 0 <= i < |RENDER_TARGET_NAMES| && 0 <= j < |RENDER_TARGET_NAMES|
    ensures AttachmentNamed(RENDER_TARGET_NAMES[i]) == AttachmentNamed(RENDER_TARGET_NAMES[j]) <==> i == j
  {
  }

  /** The default index is labelled "FINAL" and shows the final image. */
  lemma DefaultShowsFinal(geometryDepth: bool, frameBuffer: FrameBuffer, gBuffer: FrameBuffer)
    ensures RENDER_TARGET_NAMES[DEFAULT_RENDER_TARGET] == "FINAL"
    ensures CurrentRenderTarget(DEFAULT_RENDER_TARGET, geometryDepth, frameBuffer, gBuffer) == frameBuffer.final
  {
  }

  /**
   * Only the depth view consults `geometryDepth`: toggling the flag changes
   * the selected handle exactly when the index is 5 and the two buffers'
   * depth attachments differ.
   */
  lemma OnlyDepthViewUsesFlag(i: int, frameBuffer: FrameBuffer, gBuffer: FrameBuffer)
    ensures CurrentRenderTarget(i, true, frameBuffer, gBuffer) != CurrentRenderTarget(i, false, frameBuffer, gBuffer)
            <==> i == 5 && gBuffer.depth != frameBuffer.depth
  {
  }

  /** Whatever the index, the selected handle is an attachment of one of the two buffers. */
  lemma SelectionIsAttachment(i: int, geometryDepth: bool, frameBuffer: FrameBuffer, gBuffer: FrameBuffer)
    ensures exists a: Attachment :: CurrentRenderTarget(i, geometryDepth, frameBuffer, gBuffer) in {Handle(frameBuffer, a), Handle(gBuffer, a)}
  {
    var r := CurrentRenderTarget(i, geometryDepth, frameBuffer, gBuffer);
    if i == 5 {
      assert r in {Handle(frameBuffer, Depth), Handle(gBuffer, Depth)};
    } else if i == 1 {
      assert r in {Handle(frameBuffer, Specular), Handle(gBuffer, Specular)};
    } else if i == 2 {
      assert r in {Handle(frameBuffer, Normals), Handle(gBuffer, Normals)};
    } else if i == 3 {
      assert r in {Handle(frameBuffer, Position), Handle(gBuffer, Position)};
    } else if i == 4 {
      assert r in {Handle(frameBuffer, Albedo), Handle(gBuffer, Albedo)};
    } else {
      assert r in {Handle(frameBuffer, Final), Handle(gBuffer, Final)};
    }
  }
}
