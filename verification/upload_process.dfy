/** The `/api/upload/process` route: plans the image operations for a
    (zoom, rotation, flip) request — resize, then rotate, then horizontal
    flop, each only when asked for — and names the new file. The pixel work
    itself, reading the source file, the clock, `path.extname` and the disk
    write are parameters or left out. */
module UploadProcess {
  import opened Values
  import Decimal
  import UploadRoute

  /** The request body; absent and null members are None. */
  datatype ProcessBody = ProcessBody(
    imageUrl: Option<string>,
    zoom: Option<int>,
    rotation: Option<int>,
    flipH: Option<bool>)

  /** The dimensions the image library reports (None where it reports none). */
  datatype Metadata = Metadata(width: Option<int>, height: Option<int>)

  /** An image operation: a resize that fills the new box, a rotation
      (exposed corners filled with opaque white), or a horizontal mirror. */
  datatype Operation = Resize(width: int, height: int) | Rotate(degrees: int) | Flop

  const DefaultSize: int := 400
  const EditedPrefix: string := "product_edited_"

  /** The position an operation takes in a plan. */
  function Rank(op: Operation): int {
    match op
    case Resize(_, _) => 0
    case Rotate(_) => 1
    case Flop => 2
  }

  /** `Math.round(size * (zoom / 100))` in exact arithmetic: the nearest
      integer, halves rounded up. */
  function Scaled(size: int, zoom: int): (r: int)
    ensures 100 * r - 50 <= size * zoom < 100 * r + 50
  {
    (size * zoom + 50) / 100
  }

  predicate ResizeWanted(b: ProcessBody) {
    b.zoom.Some? && b.zoom.value != 0 && b.zoom.value != 100
  }

  predicate RotateWanted(b: ProcessBody) {
    b.rotation.Some? && b.rotation.value != 0
  }

  predicate FlopWanted(b: ProcessBody) {
    b.flipH == Some(true)
  }

  /** The operations applied to the source image, in order. A resize is
      planned exactly when the zoom is set and not 100, to the rounded
      scaled dimensions (400 standing in for a missing or zero dimension); a
      rotation exactly when the rotation is set and non-zero; a flop exactly
      when the flip flag is true. They always run resize, rotate, flop. */
  function Plan(b: ProcessBody, m: Metadata): (ops: seq<Operation>)
    ensures (exists i :: 0 <= i < |ops| && ops[i].Resize?) <==> ResizeWanted(b)
    ensures (exists i :: 0 <= i < |ops| && ops[i].Rotate?) <==> RotateWanted(b)
    ensures (exists i :: 0 <= i < |ops| && ops[i].Flop?) <==> FlopWanted(b)
    ensures forall i :: 0 <= i < |ops| && ops[i].Resize? ==>
      ops[i] == Resize(Scaled(NumberOr(m.width, DefaultSize), b.zoom.value),
                       Scaled(NumberOr(m.height, DefaultSize), b.zoom.value))
    ensures forall i :: 0 <= i < |ops| && ops[i].Rotate? ==> ops[i].degrees == b.rotation.value
    ensures forall i, j :: 0 <= i < j < |ops| ==> Rank(ops[i]) < Rank(ops[j])
  {
    var width := NumberOr(m.width, DefaultSize);
    var height := NumberOr(m.height, DefaultSize);
    var resize := if ResizeWanted(b) then [Resize(Scaled(width, b.zoom.value), Scaled(height, b.zoom.value))] else [];
    var rotate := if RotateWanted(b) then [Rotate(b.rotation.value)] else [];
    var flop := if FlopWanted(b) then [Flop] else [];
    var ops := resize + rotate + flop;
    assert forall i :: 0 <= i < |ops| ==>
      (i < |resize| ==> ops[i] == resize[0])
      && (|resize| <= i < |resize| + |rotate| ==> ops[i] == rotate[0])
      && (|resize| + |rotate| <= i ==> ops[i] == Flop);
    assert ResizeWanted(b) ==> ops[0].Resize?;
    assert RotateWanted(b) ==> ops[|resize|].Rotate?;
    assert FlopWanted(b) ==> ops[|ops| - 1].Flop?;
    ops
  }

  /** A request asking for nothing leaves the image as it is. */
  lemma NeutralRequestPlansNothing(url: string, m: Metadata)
    ensures Plan(ProcessBody(Some(url), Some(100), Some(0), Some(false)), m) == []
    ensures Plan(ProcessBody(Some(url), None, None, None), m) == []
  {
  }

  /** The edited file's name: `product_edited_`, the timestamp, the source's
      extension (or `.jpg`). For every extension `path.extname` can return,
      the name gives the timestamp back; it never reads as an upload's name. */
  function EditedFileName(timestamp: nat, extname: string): (name: string)
    ensures |EditedPrefix| < |name| && name[..|EditedPrefix|] == EditedPrefix
    ensures var e := UploadRoute.Extension(extname);
      |e| <= |name| && name[|name| - |e|..] == e
    ensures UploadRoute.ExtensionShape(extname) ==> EditedTimestampOf(name) == Some(timestamp)
    ensures UploadRoute.TimestampOf(name) == None
  {
    var digits := Decimal.NatToString(timestamp);
    var e := UploadRoute.Extension(extname);
    var name := EditedPrefix + (digits + e);
    assert name[..|EditedPrefix|] == EditedPrefix;
    assert name[|EditedPrefix|..] == digits + e;
    assert name[|name| - |e|..] == e;
    assert name[|UploadRoute.UploadPrefix|] == 'e';
    if UploadRoute.ExtensionShape(extname) then
      UploadRoute.LeadingDigitsOf(digits, e);
      name
    else name
  }

  /** The timestamp an edited file's name carries. */
  function EditedTimestampOf(fileName: string): Option<nat> {
    UploadRoute.TimestampAfter(EditedPrefix, fileName)
  }

  /** Edits made at different milliseconds never share a file name. */
  lemma EditedDistinctTimestampsDistinctNames(t1: nat, t2: nat, ext1: string, ext2: string)
    requires UploadRoute.ExtensionShape(ext1) && UploadRoute.ExtensionShape(ext2)
    requires t1 != t2
    ensures EditedFileName(t1, ext1) != EditedFileName(t2, ext2)
  {
  }

  /** An edited file never takes the name of an uploaded one, so editing
      never overwrites an original upload. */
  lemma EditedNeverUploadName(t1: nat, ext1: string, t2: nat, ext2: string)
    ensures UploadRoute.UploadFileName(t1, ext1) != EditedFileName(t2, ext2)
  {
    var upload := UploadRoute.UploadFileName(t1, ext1);
    var edited := EditedFileName(t2, ext2);
    var digits := Decimal.NatToString(t1);
    assert upload[8] == digits[0];
    assert edited[8] == 'e';
  }

  datatype ProcessResponse =
    | Processed(operations: seq<Operation>, fileName: string, url: string)
    | ProcessFailed(status: int, error: string)

  /** `POST /api/upload/process`. `load` reads the source file and its
      metadata (None when either throws); `written` says whether the output
      file was written. */
  function Process(b: ProcessBody, load: string -> Option<Metadata>, timestamp: nat,
                   extname: string -> string, written: bool): (r: ProcessResponse)
    ensures !PresentText(b.imageUrl) ==> r == ProcessFailed(400, "No image URL provided")
    ensures r.Processed? <==> PresentText(b.imageUrl) && load(b.imageUrl.value).Some? && written
    ensures r.Processed? ==>
      && r.operations == Plan(b, load(b.imageUrl.value).value)
      && r.fileName == EditedFileName(timestamp, extname(b.imageUrl.value))
      && |UploadRoute.UploadsUrl| <= |r.url|
      && r.url[..|UploadRoute.UploadsUrl|] == UploadRoute.UploadsUrl
      && r.url[|UploadRoute.UploadsUrl|..] == r.fileName
    ensures r.ProcessFailed? && PresentText(b.imageUrl) ==> r == ProcessFailed(500, "Error processing image")
  {
    if !PresentText(b.imageUrl) then ProcessFailed(400, "No image URL provided")
    else
      match load(b.imageUrl.value)
      case None => ProcessFailed(500, "Error processing image")
      case Some(m) =>
        var fileName := EditedFileName(timestamp, extname(b.imageUrl.value));
        if written then
          var url := UploadRoute.UploadsUrl + fileName;
          assert url[|UploadRoute.UploadsUrl|..] == fileName;
          Processed(Plan(b, m), fileName, url)
        else ProcessFailed(500, "Error processing image")
  }
}
