/** The `/api/upload` route: stores an uploaded image under a name made of
    a fixed prefix, the request's millisecond timestamp and the original
    file's extension, and answers with the public URL of that file. The
    clock, `path.extname` and the disk write are parameters. */
module UploadRoute {
  import opened Values
  import Decimal

  const UploadPrefix: string := "product_"
  const DefaultExtension: string := ".jpg"
  const UploadsUrl: string := "/uploads/"

  /** `path.extname(name) || ".jpg"`. */
  function Extension(extname: string): (e: string)
    ensures e != ""
    ensures extname != "" ==> e == extname
  {
    if extname == "" then DefaultExtension else extname
  }

  /** The stored file's name: the prefix, the timestamp's digits and the
      extension; for every extension `path.extname` can return, the name
      gives the timestamp back. */
  function UploadFileName(timestamp: nat, extname: string): (name: string)
    ensures |UploadPrefix| < |name| && name[..|UploadPrefix|] == UploadPrefix
    ensures var e := Extension(extname);
      |e| <= |name| && name[|name| - |e|..] == e
    ensures ExtensionShape(extname) ==> TimestampOf(name) == Some(timestamp)
  {
    var digits := Decimal.NatToString(timestamp);
    var e := Extension(extname);
    var name := UploadPrefix + (digits + e);
    assert name[..|UploadPrefix|] == UploadPrefix;
    assert name[|UploadPrefix|..] == digits + e;
    assert name[|name| - |e|..] == e;
    if ExtensionShape(extname) then
      LeadingDigitsOf(digits, e);
      name
    else name
  }

  /** What `path.extname` can return: nothing, or text starting with a dot. */
  predicate ExtensionShape(extname: string) {
    extname == "" || extname[0] == '.'
  }

  /** The longest run of digits at the front of s. */
  function LeadingDigits(s: string): (d: string)
    ensures |d| <= |s| && d == s[..|d|] && Decimal.AllDigits(d)
    ensures |d| == |s| || !Decimal.IsDigit(s[|d|])
  {
    if s == [] || !Decimal.IsDigit(s[0]) then ""
    else
      var rest := LeadingDigits(s[1..]);
      assert [s[0]] + rest == s[..|rest| + 1];
      [s[0]] + rest
  }

  lemma {:induction false} LeadingDigitsOf(d: string, e: string)
    requires Decimal.AllDigits(d)
    requires e == [] || !Decimal.IsDigit(e[0])
    ensures LeadingDigits(d + e) == d
  {
    if d != [] {
      assert (d + e)[1..] == d[1..] + e;
      LeadingDigitsOf(d[1..], e);
      assert [d[0]] + d[1..] == d;
    } else {
      assert d + e == e;
    }
  }

  /** The timestamp carried by a file name made of `prefix`, digits and an
      extension: the value of the digits right after the prefix. */
  function TimestampAfter(prefix: string, fileName: string): Option<nat> {
    if |prefix| <= |fileName| && fileName[..|prefix|] == prefix then
      var digits := LeadingDigits(fileName[|prefix|..]);
      if digits == "" then None else Some(Decimal.DigitsValue(digits))
    else None
  }

  /** The timestamp a stored file's name carries. */
  function TimestampOf(fileName: string): Option<nat> {
    TimestampAfter(UploadPrefix, fileName)
  }

  /** The name gives back the timestamp it was made from. */
  lemma TimestampRoundTrip(timestamp: nat, extname: string)
    requires ExtensionShape(extname)
    ensures TimestampOf(UploadFileName(timestamp, extname)) == Some(timestamp)
  {
  }

  /** Uploads made at different milliseconds never share a file name. */
  lemma DistinctTimestampsDistinctNames(t1: nat, t2: nat, ext1: string, ext2: string)
    requires ExtensionShape(ext1) && ExtensionShape(ext2)
    requires t1 != t2
    ensures UploadFileName(t1, ext1) != UploadFileName(t2, ext2)
  {
    TimestampRoundTrip(t1, ext1);
    TimestampRoundTrip(t2, ext2);
  }

  datatype UploadResponse =
    | Stored(fileName: string, url: string)
    | UploadFailed(status: int, error: string)

  /** `POST /api/upload`. `file` is the name of the uploaded file (None when
      the form has no file); `written` says whether the disk write succeeded.
      The URL names the very file that was written. */
  function Upload(file: Option<string>, timestamp: nat, extname: string -> string, written: bool): (r: UploadResponse)
    ensures file.None? ==> r == UploadFailed(400, "No file uploaded")
    ensures file.Some? && !written ==> r == UploadFailed(500, "Error uploading file")
    ensures file.Some? && written ==>
      && r.Stored?
      && r.fileName == UploadFileName(timestamp, extname(file.value))
      && |UploadsUrl| <= |r.url| && r.url[..|UploadsUrl|] == UploadsUrl
      && r.url[|UploadsUrl|..] == r.fileName
  {
    match file
    case None => UploadFailed(400, "No file uploaded")
    case Some(name) =>
      var fileName := UploadFileName(timestamp, extname(name));
      if written then
        var url := UploadsUrl + fileName;
        assert url[|UploadsUrl|..] == fileName;
        Stored(fileName, url)
      else UploadFailed(500, "Error uploading file")
  }
}
