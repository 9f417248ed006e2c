/**
 The storage-key part of the pre-signed upload route: from the uploaded
 file's name and the current time it builds the object key
 `receipts/<YYYYMM>/<seconds>_<base>.<ext>` and the public address of that
 object. Signing the upload request is not part of this model.

 The clock is a parameter: `year` is `getFullYear()`, `month` is
 `getMonth()` (0 for January) and `millis` is `getTime()`.
 */
module ObjectKey {
  import opened ReceiptTypes
  import opened Text
  import opened Decimal

  datatype Clock = Clock(year: int, month: int, millis: int)

  /** The route's answer: a 400 error, or the object key and its public URL. */
  datatype KeyResponse =
    | BadRequest(status: int, error: string)
    | Presigned(fullPath: string, publicUrl: string)

  /** The four variable parts of an object key. */
  datatype KeyParts = KeyParts(directory: string, stamp: string, base: string, ext: string)

  /** A query parameter the route treats as missing: absent or empty. */
  function Missing(p: Option<string>): (b: bool)
    ensures b <==> p == None || p == Some("")
  {
    p.None? || p.value == ""
  }

  /** The year followed by the 1-based month padded to two digits. */
  function DirectoryName(year: int, month: int): (r: string)
    requires 0 <= month < 12
    ensures 2 <= |r|
    ensures forall k :: 0 <= k < |r| ==> IsDigit(r[k]) || (k == 0 && year < 0 && r[k] == '-')
  {
    var m := NatToString(month + 1);
    var p := PadStart(m, 2, '0');
    assert AllDigits(p) by {
      forall k | 0 <= k < |p| ensures IsDigit(p[k]) {
        if k >= |p| - |m| { assert p[k] == m[k - (|p| - |m|)]; }
      }
    }
    IntToString(year) + p
  }

  /** For a year of our era the directory name reads back as the year
      followed by the month, 1 for January. */
  lemma DirectoryNameReadsBack(year: int, month: int)
    requires 0 <= month < 12 && year >= 0
    ensures var r := DirectoryName(year, month);
      && AllDigits(r) && r[..|r| - 2] == IntToString(year) && DigitsValue(r[..|r| - 2]) == year
      && DigitsValue(r[|r| - 2..]) == month + 1
  {
    var y := IntToString(year);
    var m := NatToString(month + 1);
    var p := PadStart(m, 2, '0');
    var r := DirectoryName(year, month);
    assert r == y + p;
    LeadingZerosValue(p[..|p| - |m|], m);
    assert p == p[..|p| - |m|] + m;
    NatToStringRoundTrip(month + 1);
    IntToStringRoundTrip(year);
    assert r[|r| - 2..] == p && r[..|r| - 2] == y;
  }

  /** Neither '/' nor '_' occurs in the text of a number. */
  lemma NoSeparatorInNumber(i: int)
    ensures '/' !in IntToString(i) && '_' !in IntToString(i)
  {
  }

  /** `Math.floor(getTime() / 1000)`: whole seconds, rounded down also for
      times before 1970 (Dafny's division by a positive number rounds down). */
  function Timestamp(millis: int): (t: int)
    ensures t * 1000 <= millis < t * 1000 + 1000
  {
    millis / 1000
  }

  /** The key laid out from its parts: the "receipts/" prefix, the directory
      up to a '/', and at the end a '.' before the extension. */
  function ObjectPath(p: KeyParts): (r: string)
    ensures |r| == 12 + |p.directory| + |p.stamp| + |p.base| + |p.ext|
    ensures r[..9] == "receipts/"
    ensures r[9..9 + |p.directory|] == p.directory && r[9 + |p.directory|] == '/'
    ensures r[|r| - |p.ext|..] == p.ext && r[|r| - |p.ext| - 1] == '.'
  {
    "receipts/" + p.directory + "/" + p.stamp + "_" + p.base + "." + p.ext
  }

  /** The text before the first `c` and the text after it, if `c` occurs. */
  function CutAt(s: string, c: char): (r: Option<(string, string)>)
    ensures r.Some? ==> c !in r.value.0 && s == r.value.0 + [c] + r.value.1
    ensures r.None? ==> c !in s
  {
    var head := BeforeFirst(s, c);
    if |head| == |s| then None
    else
      assert s == head + [c] + s[|head| + 1..];
      Some((head, s[|head| + 1..]))
  }

  /** Cutting stops at the first `c`, so a head without `c` is found again. */
  lemma CutAtJoined(a: string, c: char, b: string)
    requires c !in a
    ensures CutAt(a + [c] + b, c) == Some((a, b))
  {
    var s := a + [c] + b;
    var r := CutAt(s, c);
    assert s[|a|] == c;
    var h := r.value.0;
    assert h == s[..|a|] == a;
    assert r.value.1 == s[|a| + 1..] == b;
  }

  /** The parts of `receipts/<directory>/<stamp>_<base>.<ext>`, cutting at
      the first '/', then the first '_', then the first '.'. */
  function ParseObjectPath(path: string): Option<KeyParts> {
    if |path| < 9 || path[..9] != "receipts/" then None
    else
      match CutAt(path[9..], '/')
      case None => None
      case Some((dir, rest)) =>
        match CutAt(rest, '_')
        case None => None
        case Some((stamp, rest2)) =>
          match CutAt(rest2, '.')
          case None => None
          case Some((base, ext)) => Some(KeyParts(dir, stamp, base, ext))
  }

  /** A key whose directory has no '/', whose stamp has no '_' and whose base
      has no '.' can be taken apart again into exactly those parts. */
  lemma {:induction false} ParseObjectPathRoundTrip(p: KeyParts)
    requires '/' !in p.directory && '_' !in p.stamp && '.' !in p.base
    ensures ParseObjectPath(ObjectPath(p)) == Some(p)
  {
    var rest3 := p.base + "." + p.ext;
    var rest2 := p.stamp + "_" + rest3;
    var rest := p.directory + "/" + rest2;
    var path := ObjectPath(p);
    assert path == "receipts/" + rest;
    assert path[..9] == "receipts/" && path[9..] == rest;
    CutAtJoined(p.directory, '/', rest2);
    CutAtJoined(p.stamp, '_', rest3);
    CutAtJoined(p.base, '.', p.ext);
  }

  /** The parts of the key the route builds for `filename` at `clock`: the
      year-month directory, the seconds, the text before the first '.' and
      the text after the last '.'. */
  function KeyPartsFor(filename: string, clock: Clock): (p: KeyParts)
    requires 0 <= clock.month < 12
    ensures p.directory == DirectoryName(clock.year, clock.month)
    ensures p.stamp == IntToString(Timestamp(clock.millis))
    ensures '/' !in p.directory && '_' !in p.stamp && '.' !in p.base && '.' !in p.ext
    ensures |p.base| <= |filename| && p.base == filename[..|p.base|]
    ensures |p.base| == |filename| || filename[|p.base|] == '.'
    ensures |p.ext| <= |filename| && p.ext == filename[|filename| - |p.ext|..]
    ensures |p.ext| == |filename| || filename[|filename| - |p.ext| - 1] == '.'
  {
    var stamp := IntToString(Timestamp(clock.millis));
    NoSeparatorInNumber(Timestamp(clock.millis));
    var directory := DirectoryName(clock.year, clock.month);
    var base := BeforeFirst(filename, '.');
    var ext := AfterLast(filename, '.');
    KeyParts(directory, stamp, base, ext)
  }

  /** The route without its signing step. A missing or empty file name or
      content type is answered with 400. Otherwise the answer carries the
      object key, which reads back as the year-month directory, the seconds,
      the base and the extension of the file name, and the public URL, which
      is the key under the public domain. */
  function GetPresignedUrl(filename: Option<string>, contentType: Option<string>, clock: Clock,
                           publicDomain: string): (r: KeyResponse)
    requires 0 <= clock.month < 12
    ensures r.BadRequest? <==> Missing(filename) || Missing(contentType)
    ensures r.BadRequest? ==> r.status == 400 && r.error == "Missing filename or contentType"
    ensures r.Presigned? ==>
      && ParseObjectPath(r.fullPath) == Some(KeyPartsFor(filename.value, clock))
      && r.publicUrl == "https://" + publicDomain + "/" + r.fullPath
  {
    if Missing(filename) || Missing(contentType) then
      BadRequest(400, "Missing filename or contentType")
    else
      var parts := KeyPartsFor(filename.value, clock);
      ParseObjectPathRoundTrip(parts);
      var fullPath := ObjectPath(parts);
      Presigned(fullPath, "https://" + publicDomain + "/" + fullPath)
  }

  /** A file name without a '.' serves as both base and extension. */
  lemma NameWithoutDot(filename: string, clock: Clock)
    requires 0 <= clock.month < 12 && '.' !in filename
    ensures KeyPartsFor(filename, clock).base == filename && KeyPartsFor(filename, clock).ext == filename
  {
    NoSeparatorWholeString(filename, '.');
  }
}
