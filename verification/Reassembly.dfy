/** Reassembly of a split archive: what is published, for any chunking of the reads. */
module Reassembly {
  import opened Common

  type Byte = n: int | 0 <= n < 256
  type Bytes = seq<Byte>

  datatype Result = Ok | Err(reason: string)

  const CHUNK: nat := 1024 * 1024

  const PARTS_VERSION: int := 1
  const PARTS_FORMAT: string := "summitflow-age-parts"
  const ARCHIVE_SUFFIX: string := ".tar.gz.age"

  datatype Json = Null | Boolean(b: bool) | Integer(n: int) | Float(x: real) | Text(text: string)
                | List(items: seq<Json>) | Object(fields: map<string, Json>)

  datatype Part = Part(name: string, size: int, checksum: string)

  datatype Manifest = Manifest(archive: string, size: int, checksum: string, parts: seq<Part>)

  function TotalSize(parts: seq<Part>): int {
    if parts == [] then 0 else TotalSize(parts[..|parts| - 1]) + parts[|parts| - 1].size
  }

  predicate Alphanumeric(c: char) {
    'a' <= c <= 'z' || 'A' <= c <= 'Z' || '0' <= c <= '9'
  }

  /** A plain file name that ends in the archive suffix. */
  predicate SafeName(s: string) {
    && |s| > |ARCHIVE_SUFFIX| && s[|s| - |ARCHIVE_SUFFIX|..] == ARCHIVE_SUFFIX
    && Alphanumeric(s[0])
    && forall i :: 0 <= i < |s| ==> Alphanumeric(s[i]) || s[i] in {'.', '_', '-'}
  }

  predicate IsChecksum(s: string) {
    && |s| == 71 && s[..7] == "sha256:"
    && forall i :: 7 <= i < 71 ==> '0' <= s[i] <= '9' || 'a' <= s[i] <= 'f'
  }

  function Digits(n: nat): string {
    if n < 10 then ['0' + n as char] else Digits(n / 10) + ['0' + (n % 10) as char]
  }

  function Zeros(n: int): string {
    if n <= 0 then "" else "0" + Zeros(n - 1)
  }

  /** The name of the part with a given index, counted from one. */
  function PartName(archive: string, index: nat): string {
    archive + ".part" + Zeros(6 - |Digits(index)|) + Digits(index)
  }

  /** The number a string of digits writes. */
  function Value(s: string): int {
    if s == "" then 0 else 10 * Value(s[..|s| - 1]) + (s[|s| - 1] as int - '0' as int)
  }

  predicate AllDigits(s: string) {
    forall c :: c in s ==> '0' <= c <= '9'
  }

  lemma {:induction false} DigitsWrite(n: nat)
    ensures Digits(n) != "" && AllDigits(Digits(n)) && Value(Digits(n)) == n
    ensures n > 0 ==> Digits(n)[0] != '0'
  {
    if n < 10 {
      assert Value([]) == 0 && Digits(n)[..0] == [];
    } else {
      DigitsWrite(n / 10);
      assert Digits(n)[..|Digits(n)| - 1] == Digits(n / 10);
      assert forall c :: c in Digits(n) ==> c in Digits(n / 10) || c == '0' + (n % 10) as char;
    }
  }

  lemma {:induction false} ZerosVanish(n: int, d: string)
    ensures Value(Zeros(n) + d) == Value(d) && |Zeros(n)| == (if n > 0 then n else 0) && AllDigits(Zeros(n))
    decreases if n > 0 then n else 0, |d|
  {
    if d == "" {
      if n > 0 {
        ZerosVanish(n - 1, "");
        assert Zeros(n) + d == Zeros(n - 1) + "0" by { ZerosTail(n - 1); }
        assert (Zeros(n - 1) + "0")[..|Zeros(n - 1)|] == Zeros(n - 1);
        assert Zeros(n - 1) + "" == Zeros(n - 1);
      }
    } else {
      ZerosVanish(n, d[..|d| - 1]);
      assert (Zeros(n) + d)[..|Zeros(n) + d| - 1] == Zeros(n) + d[..|d| - 1];
    }
  }

  lemma {:induction false} ZerosTail(n: int)
    requires n >= 0
    ensures Zeros(n + 1) == Zeros(n) + "0"
  {
    if n > 0 {
      ZerosTail(n - 1);
    }
  }

  lemma AllDigitsConcat(a: string, b: string)
    requires AllDigits(a) && AllDigits(b)
    ensures AllDigits(a + b)
  {
  }

  /** A part's name ends in its index, written with at least six digits and no more leading
      zeros than that takes. */
  lemma PartNameIs(archive: string, index: nat)
    requires index > 0
    ensures exists d: string :: PartName(archive, index) == archive + ".part" + d && WritesIndex(d, index)
  {
    hide Digits, Zeros, Value, AllDigits;
    var digits := Digits(index);
    var zeros := Zeros(6 - |digits|);
    DigitsWrite(index);
    ZerosVanish(6 - |digits|, digits);
    AllDigitsConcat(zeros, digits);
    assert |zeros| == 0 ==> zeros + digits == digits;
    assert PartName(archive, index) == archive + ".part" + (zeros + digits);
    assert WritesIndex(zeros + digits, index);
  }

  predicate WritesIndex(d: string, index: nat) {
    |d| >= 6 && AllDigits(d) && Value(d) == index && (|d| > 6 ==> d[0] != '0')
  }

  /** A checksum is the prefix and sixty-four lower-case hexadecimal digits. */
  lemma ChecksumIff(s: string)
    ensures IsChecksum(s) <==> |s| == 71 && s[..7] == "sha256:" && forall c :: c in s[7..] ==> c in "0123456789abcdef"
  {
    if |s| == 71 {
      forall i | 7 <= i < 71 ensures s[i] in s[7..] {
        assert s[i] == s[7..][i - 7];
      }
      forall c: char ensures ('0' <= c <= '9' || 'a' <= c <= 'f') <==> c in "0123456789abcdef" {
        HexDigit(c);
      }
    }
  }

  lemma HexDigit(c: char)
    ensures ('0' <= c <= '9' || 'a' <= c <= 'f') <==> c in "0123456789abcdef"
  {
    var hex := "0123456789abcdef";
    if '0' <= c <= '9' {
      assert hex[c as int - '0' as int] == c;
    } else if 'a' <= c <= 'f' {
      assert hex[10 + c as int - 'a' as int] == c;
    }
  }

  const UPPER: string := "ABCDEFGHIJKLMNOPQRSTUVWXYZ"
  const LOWER: string := "abcdefghijklmnopqrstuvwxyz"
  const DIGITS: string := "0123456789"

  lemma Upper(c: char)
    ensures 'A' <= c <= 'Z' <==> c in UPPER
  {
    if 'A' <= c <= 'Z' {
      assert UPPER[c as int - 'A' as int] == c;
    }
  }

  lemma Lower(c: char)
    ensures 'a' <= c <= 'z' <==> c in LOWER
  {
    if 'a' <= c <= 'z' {
      assert LOWER[c as int - 'a' as int] == c;
    }
  }

  lemma Digit(c: char)
    ensures '0' <= c <= '9' <==> c in DIGITS
  {
    if '0' <= c <= '9' {
      assert DIGITS[c as int - '0' as int] == c;
    }
  }

  ghost predicate InAlphabet(c: char) {
    c in UPPER || c in LOWER || c in DIGITS
  }

  lemma LetterOrDigit(c: char)
    ensures Alphanumeric(c) <==> InAlphabet(c)
  {
    hide UPPER, LOWER, DIGITS;
    Upper(c);
    Lower(c);
    Digit(c);
  }

  /** A safe name is a non-empty stem and the archive suffix, begins with a letter or digit,
      and otherwise has letters, digits, dots, underscores and dashes. */
  lemma SafeNameIff(s: string)
    ensures SafeName(s) <==>
              && |s| > 11 && s[|s| - 11..] == ".tar.gz.age" && InAlphabet(s[0])
              && forall c :: c in s ==> InAlphabet(c) || c in "._-"
  {
    hide Alphanumeric, InAlphabet;
    forall c: char ensures Alphanumeric(c) <==> InAlphabet(c) {
      LetterOrDigit(c);
    }
    assert forall i :: 0 <= i < |s| ==> s[i] in s;
  }

  predicate PositiveInteger(j: Json) {
    j.Integer? && j.n > 0
  }

  predicate ChecksumText(j: Json) {
    j.Text? && IsChecksum(j.text)
  }

  /** The part object has exactly its three keys, the expected name, a positive size and a checksum. */
  predicate IsPart(j: Json, archive: string, index: nat) {
    && j.Object? && j.fields.Keys == {"name", "size_bytes", "checksum"}
    && j.fields["name"] == Text(PartName(archive, index))
    && PositiveInteger(j.fields["size_bytes"]) && ChecksumText(j.fields["checksum"])
  }

  /** Everything but the parts themselves. */
  predicate IsHeader(j: map<string, Json>, manifestName: string, outputName: string) {
    && j.Keys == {"version", "format", "archive_name", "size_bytes", "checksum", "parts"}
    && j["version"] == Integer(PARTS_VERSION) && j["format"] == Text(PARTS_FORMAT)
    && j["archive_name"].Text? && SafeName(j["archive_name"].text)
    && PositiveInteger(j["size_bytes"]) && ChecksumText(j["checksum"])
    && j["parts"].List? && j["parts"].items != []
    && manifestName == j["archive_name"].text + ".parts.json" && outputName == j["archive_name"].text
  }

  predicate ArePartsOf(items: seq<Json>, archive: string) {
    forall i :: 0 <= i < |items| ==> IsPart(items[i], archive, i + 1)
  }

  function PartsIn(items: seq<Json>, archive: string): (parts: seq<Part>)
    requires ArePartsOf(items, archive)
    ensures |parts| == |items|
  {
    seq(|items|, i requires 0 <= i < |items| =>
      assert IsPart(items[i], archive, i + 1);
      Part(items[i].fields["name"].text, items[i].fields["size_bytes"].n, items[i].fields["checksum"].text))
  }

  /** The manifest is accepted: header, every part in order, and sizes that add up. */
  predicate IsManifest(j: map<string, Json>, manifestName: string, outputName: string) {
    && IsHeader(j, manifestName, outputName)
    && ArePartsOf(j["parts"].items, j["archive_name"].text)
    && TotalSize(PartsIn(j["parts"].items, j["archive_name"].text)) == j["size_bytes"].n
  }

  function ManifestOf(j: map<string, Json>, manifestName: string, outputName: string): Manifest
    requires IsManifest(j, manifestName, outputName)
  {
    Manifest(j["archive_name"].text, j["size_bytes"].n, j["checksum"].text,
             PartsIn(j["parts"].items, j["archive_name"].text))
  }

  /** Parts are named in order, have positive sizes, and add up. */
  predicate WellFormed(m: Manifest) {
    && m.parts != [] && m.size > 0 && TotalSize(m.parts) == m.size
    && forall i :: 0 <= i < |m.parts| ==> m.parts[i].name == PartName(m.archive, i + 1) && m.parts[i].size > 0
  }

  lemma ManifestIsWellFormed(j: map<string, Json>, manifestName: string, outputName: string)
    requires IsManifest(j, manifestName, outputName)
    ensures WellFormed(ManifestOf(j, manifestName, outputName))
  {
    hide PartName;
    var m := ManifestOf(j, manifestName, outputName);
    forall i | 0 <= i < |m.parts| ensures m.parts[i].name == PartName(m.archive, i + 1) && m.parts[i].size > 0 {
      assert IsPart(j["parts"].items[i], m.archive, i + 1);
    }
  }

  /** `_validate_parts_manifest`: the part loop accumulates the validated parts and their
      declared total. */
  method Validate(j: map<string, Json>, manifestName: string, outputName: string) returns (r: Option<Manifest>)
    ensures r.Some? <==> IsManifest(j, manifestName, outputName)
    ensures r.Some? ==> r.value == ManifestOf(j, manifestName, outputName) && WellFormed(r.value)
  {
    hide PartName, WellFormed, SafeName, IsChecksum;
    if j.Keys != {"version", "format", "archive_name", "size_bytes", "checksum", "parts"} {
      return None;
    }
    if j["version"] != Integer(1) || j["format"] != Text("summitflow-age-parts")
       || !j["archive_name"].Text? || !SafeName(j["archive_name"].text)
       || !j["size_bytes"].Integer? || j["size_bytes"].n <= 0
       || !j["checksum"].Text? || !IsChecksum(j["checksum"].text)
       || !j["parts"].List? || j["parts"].items == [] {
      return None;
    }
    var items, archive := j["parts"].items, j["archive_name"].text;
    if manifestName != archive + ".parts.json" || outputName != archive {
      return None;
    }
    assert IsHeader(j, manifestName, outputName);
    var declared, parts: seq<Part> := 0, [];
    for i := 0 to |items|
      invariant ArePartsOf(items[..i], archive) && parts == PartsIn(items[..i], archive)
      invariant declared == TotalSize(parts)
    {
      var item := items[i];
      if !item.Object? || item.fields.Keys != {"name", "size_bytes", "checksum"} {
        assert !IsPart(items[i], archive, i + 1);
        return None;
      }
      if item.fields["name"] != Text(PartName(archive, i + 1))
         || !item.fields["size_bytes"].Integer? || item.fields["size_bytes"].n <= 0
         || !item.fields["checksum"].Text? || !IsChecksum(item.fields["checksum"].text) {
        assert !IsPart(items[i], archive, i + 1);
        return None;
      }
      assert IsPart(items[i], archive, i + 1);
      MorePart(items, archive, i);
      var part := PartOf(items[i], archive, i + 1);
      assert (parts + [part])[..|parts|] == parts;
      declared, parts := declared + part.size, parts + [part];
    }
    assert items[..|items|] == items;
    if declared != j["size_bytes"].n {
      return None;
    }
    ManifestIsWellFormed(j, manifestName, outputName);
    r := Some(Manifest(archive, j["size_bytes"].n, j["checksum"].text, parts));
  }

  function PartOf(j: Json, archive: string, index: nat): Part
    requires IsPart(j, archive, index)
  {
    Part(j.fields["name"].text, j.fields["size_bytes"].n, j.fields["checksum"].text)
  }

  lemma MorePart(items: seq<Json>, archive: string, i: nat)
    requires i < |items| && ArePartsOf(items[..i], archive) && IsPart(items[i], archive, i + 1)
    ensures ArePartsOf(items[..i + 1], archive)
    ensures PartsIn(items[..i + 1], archive) == PartsIn(items[..i], archive) + [PartOf(items[i], archive, i + 1)]
  {
    hide PartName, IsPart;
    var before, after := items[..i], items[..i + 1];
    assert after == before + [items[i]];
    forall k | 0 <= k < |after| ensures IsPart(after[k], archive, k + 1) {
      assert k < i ==> before[k] == after[k];
    }
  }

  /** One part as found: absent (or not a regular file), or opened, with its size before and
      after the copy and every byte that successive reads deliver until the end.  The three
      may disagree when the file changes meanwhile. */
  datatype Found = Absent | Opened(sizeBefore: nat, bytes: Bytes, sizeAfter: nat)

  function Delivered(file: Found): Bytes {
    if file.Absent? then [] else file.bytes
  }

  function Contents(files: seq<Found>): Bytes {
    if files == [] then [] else Contents(files[..|files| - 1]) + Delivered(files[|files| - 1])
  }

  /** The file is, and stays, exactly the part that the manifest describes. */
  predicate Genuine(part: Part, file: Found, digest: Bytes -> string) {
    && file.Opened?
    && file.sizeBefore == |file.bytes| == file.sizeAfter == part.size
    && digest(file.bytes) == part.checksum
  }

  /** All parts are genuine and so is their concatenation in index order. */
  ghost predicate Verified(m: Manifest, files: seq<Found>, digest: Bytes -> string) {
    && |files| == |m.parts|
    && (forall i :: 0 <= i < |files| ==> Genuine(m.parts[i], files[i], digest))
    && digest(Contents(files)) == m.checksum
  }

  /** Genuine parts add up to the declared sizes. */
  lemma {:induction false} ContentsSize(parts: seq<Part>, files: seq<Found>, digest: Bytes -> string)
    requires |files| == |parts|
    requires forall i :: 0 <= i < |files| ==> Genuine(parts[i], files[i], digest)
    ensures |Contents(files)| == TotalSize(parts)
  {
    if files != [] {
      ContentsSize(parts[..|parts| - 1], files[..|files| - 1], digest);
    }
  }

  /** How many bytes the next read delivers: any positive number up to what was asked and
      what is left, none only at the end of the file. */
  method ReadLength(asked: nat, left: nat) returns (n: nat)
    ensures n <= asked && n <= left
    ensures n == 0 <==> asked == 0 || left == 0
  {
    n := *;
    if n <= 0 || n > asked || n > left {
      n := if asked < left then asked else left;
    }
  }

  /** The output directory: the published archive and the temporary beside it. */
  class Directory {
    /** It exists and is not a symbolic link. */
    const isReal: bool
    var output: Option<Bytes>
    var temporary: Option<Bytes>

    constructor (isReal: bool)
      ensures this.isReal == isReal && output == None && temporary == None
    {
      this.isReal, output, temporary := isReal, None, None;
    }
  }

  /** Copies one part into the temporary, feeding the same chunks to both digests: `seen` is
      what the archive digest has been fed.  The outcome does not depend on the chunking. */
  method CopyPart(dir: Directory, part: Part, file: Found, seen: Bytes, digest: Bytes -> string)
    returns (r: Result, seen': Bytes)
    requires part.size > 0 && dir.temporary == Some(seen)
    modifies dir`temporary
    ensures dir.temporary == Some(seen')
    ensures r.Ok? <==> Genuine(part, file, digest)
    ensures r.Ok? ==> seen' == seen + Delivered(file)
  {
    seen' := seen;
    if file.Absent? {
      return Err("missing or not a regular file"), seen';
    }
    if file.sizeBefore != part.size {
      return Err("size does not match manifest before assembly"), seen';
    }
    var remaining: int := part.size;
    var content: Bytes := [];
    while remaining > 0
      invariant 0 <= remaining && |content| + remaining == part.size
      invariant |content| <= |file.bytes| && content == file.bytes[..|content|]
      invariant seen' == seen + content && dir.temporary == Some(seen')
      decreases remaining
    {
      var n := ReadLength(if remaining < CHUNK then remaining else CHUNK, |file.bytes| - |content|);
      if n == 0 {
        return Err("changed size during assembly"), seen';
      }
      var chunk := file.bytes[|content|..|content| + n];
      assert file.bytes[..|content| + n] == file.bytes[..|content|] + chunk;
      dir.temporary := Some(dir.temporary.value + chunk);
      assert seen + (content + chunk) == seen' + chunk;
      seen', content := seen' + chunk, content + chunk;
      remaining := remaining - |chunk|;
    }
    var extra := ReadLength(1, |file.bytes| - |content|);
    if extra != 0 || file.sizeAfter != part.size {
      return Err("changed size during assembly"), seen';
    }
    assert content == file.bytes;
    r := if |content| == part.size && digest(content) == part.checksum then Ok else Err("failed verification");
  }

  /** Copies every part in index order and checks the whole. */
  method CopyAll(dir: Directory, m: Manifest, files: seq<Found>, digest: Bytes -> string) returns (r: Result)
    requires WellFormed(m) && |files| == |m.parts| && dir.temporary == Some([])
    modifies dir`temporary
    ensures dir.temporary.Some?
    ensures r.Ok? <==> Verified(m, files, digest)
    ensures r.Ok? ==> dir.temporary.value == Contents(files)
  {
    hide PartName, IsPart, SafeName;
    var seen: Bytes := [];
    for i := 0 to |m.parts|
      invariant forall k :: 0 <= k < i ==> Genuine(m.parts[k], files[k], digest)
      invariant seen == Contents(files[..i]) && dir.temporary == Some(seen)
    {
      r, seen := CopyPart(dir, m.parts[i], files[i], seen, digest);
      if r.Err? {
        return;
      }
      assert files[..i + 1][..i] == files[..i];
    }
    assert files[..|files|] == files;
    ContentsSize(m.parts, files, digest);
    r := if |seen| == m.size && digest(seen) == m.checksum then Ok else Err("reassembled archive failed verification");
  }

  /** The parts a manifest names, as a directory holds them. */
  function FilesOf(m: Manifest, lookup: string -> Found): seq<Found> {
    seq(|m.parts|, i requires 0 <= i < |m.parts| => lookup(m.parts[i].name))
  }

  /** `assemble_parts`.  `lookup` is the directory of parts by name, and `linkable` whether
      the final link succeeds.  It succeeds exactly when the manifest is accepted, every part
      is genuine and so is the whole, whatever the chunking; then the published file is the
      concatenation of the parts in index order.  Otherwise nothing is published.  The
      temporary is gone either way. */
  method Assemble(dir: Directory, j: map<string, Json>, manifestName: string, outputName: string,
                  lookup: string -> Found, digest: Bytes -> string, linkable: bool)
    returns (r: Result)
    requires dir.temporary == None
    modifies dir
    ensures dir.temporary == None
    ensures r.Ok? <==>
              old(dir.output) == None && dir.isReal && IsManifest(j, manifestName, outputName) && linkable &&
              (var m := ManifestOf(j, manifestName, outputName); Verified(m, FilesOf(m, lookup), digest))
    ensures r.Err? ==> dir.output == old(dir.output)
    ensures r.Ok? ==>
              var m := ManifestOf(j, manifestName, outputName);
              var published := Contents(FilesOf(m, lookup));
              dir.output == Some(published) && |published| == m.size && digest(published) == m.checksum
  {
    hide IsManifest, ManifestOf;
    if dir.output.Some? {
      return Err("output file already exists");
    }
    if !dir.isReal {
      return Err("output file parent must be an existing real directory");
    }
    var accepted := Validate(j, manifestName, outputName);
    if accepted.None? {
      return Err("parts manifest has an invalid contract");
    }
    var m := accepted.value;
    var files := FilesOf(m, lookup);
    dir.temporary := Some([]);
    r := CopyAll(dir, m, files, digest);
    if r.Ok? {
      ContentsSize(m.parts, files, digest);
      if linkable {
        dir.output := dir.temporary;
      } else {
        r := Err("could not publish reassembled archive");
      }
    }
    dir.temporary := None;
  }
}
