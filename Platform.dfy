/** The few .NET library behaviours the client depends on, stated as pure functions:
    invariant lower-casing, white-space classification and file-extension extraction. */
module Platform {
  import opened Wrappers

  /** One byte of a file's contents. */
  newtype byte = x: int | 0 <= x < 256

  /** The file system as the client sees it: the files that exist and their contents. */
  datatype FileSystem = FileSystem(files: map<string, seq<byte>>) {
    /** `File.Exists` */
    predicate Exists(path: string) {
      path in files
    }

    /** `File.ReadAllBytes` on a file that exists. */
    function ReadAllBytes(path: string): seq<byte>
      requires Exists(path)
    {
      files[path]
    }
  }

  /** Invariant lower-casing of one character, restricted to the ASCII letters. */
  function LowerChar(c: char): (l: char)
    ensures 'A' <= c <= 'Z' ==> 'a' <= l <= 'z' && l as int - c as int == 32
    ensures !('A' <= c <= 'Z') ==> l == c
  {
    if 'A' <= c <= 'Z' then (c as int + 32) as char else c
  }

  /** `string.ToLowerInvariant`: the string, one lower-cased character per character. */
  function ToLowerInvariant(s: string): (r: string)
    ensures |r| == |s|
    ensures forall i :: 0 <= i < |s| ==> r[i] == LowerChar(s[i])
  {
    if s == [] then [] else [LowerChar(s[0])] + ToLowerInvariant(s[1..])
  }

  /** Lower-casing twice is lower-casing once. */
  lemma ToLowerInvariantIdempotent(s: string)
    ensures ToLowerInvariant(ToLowerInvariant(s)) == ToLowerInvariant(s)
  {
    var once := ToLowerInvariant(s);
    var twice := ToLowerInvariant(once);
    assert forall i :: 0 <= i < |s| ==> twice[i] == once[i];
  }

  /** Lower-casing commutes with taking a suffix. */
  lemma ToLowerInvariantSuffix(s: string, k: nat)
    requires k <= |s|
    ensures ToLowerInvariant(s)[k..] == ToLowerInvariant(s[k..])
  {
    var lower := ToLowerInvariant(s);
    var part := ToLowerInvariant(s[k..]);
    forall i | 0 <= i < |part|
      ensures lower[k..][i] == part[i]
    {
      assert lower[k..][i] == lower[k + i] == LowerChar(s[k + i]);
      assert s[k..][i] == s[k + i];
    }
  }

  /** The alphabet of base64 text (section 4 of RFC 4648), padding included. */
  predicate IsBase64Char(c: char) {
    'A' <= c <= 'Z' || 'a' <= c <= 'z' || '0' <= c <= '9' || c == '+' || c == '/' || c == '='
  }

  /** `char.IsWhiteSpace`: the Unicode white-space characters. The four ASCII
      separators are among them; no character of base64 text is. */
  predicate IsWhiteSpace(c: char)
    ensures c == ' ' || c == '\t' || c == '\n' || c == '\r' ==> IsWhiteSpace(c)
    ensures IsBase64Char(c) ==> !IsWhiteSpace(c)
  {
    || '\U{9}' <= c <= '\U{D}'
    || c == ' '
    || c == '\U{85}'
    || c == '\U{A0}'
    || c == '\U{1680}'
    || '\U{2000}' <= c <= '\U{200A}'
    || c == '\U{2028}'
    || c == '\U{2029}'
    || c == '\U{202F}'
    || c == '\U{205F}'
    || c == '\U{3000}'
  }

  /** `string.IsNullOrWhiteSpace`: null, empty, or nothing but white space. */
  predicate IsNullOrWhiteSpace(s: Option<string>) {
    match s
    case None => true
    case Some(str) => forall i :: 0 <= i < |str| ==> IsWhiteSpace(str[i])
  }

  /** Null and empty are refused; so is any string of white space, however long. */
  lemma {:induction false} WhiteSpaceRefused(s: string)
    requires forall i :: 0 <= i < |s| ==> s[i] == ' ' || s[i] == '\t' || s[i] == '\n' || s[i] == '\r'
    ensures IsNullOrWhiteSpace(None) && IsNullOrWhiteSpace(Some(""))
    ensures IsNullOrWhiteSpace(Some(s))
  {
    forall i | 0 <= i < |s|
      ensures IsWhiteSpace(s[i])
    {
    }
  }

  /** Non-empty base64 text passes, whatever is put before or after it. */
  lemma Base64TextAccepted(s: string, pad: string)
    requires |s| > 0 && forall i :: 0 <= i < |s| ==> IsBase64Char(s[i])
    ensures !IsNullOrWhiteSpace(Some(s))
    ensures !IsNullOrWhiteSpace(Some(pad + s)) && !IsNullOrWhiteSpace(Some(s + pad))
  {
    assert !IsWhiteSpace(s[0]);
    assert (pad + s)[|pad|] == s[0];
    assert (s + pad)[0] == s[0];
  }

  /** A string is white space exactly when both of its halves are. */
  lemma WhiteSpaceOfConcat(a: string, b: string)
    ensures IsNullOrWhiteSpace(Some(a + b)) <==> IsNullOrWhiteSpace(Some(a)) && IsNullOrWhiteSpace(Some(b))
  {
    if IsNullOrWhiteSpace(Some(a + b)) {
      forall i | 0 <= i < |a| ensures IsWhiteSpace(a[i]) { assert (a + b)[i] == a[i]; }
      forall i | 0 <= i < |b| ensures IsWhiteSpace(b[i]) { assert (a + b)[|a| + i] == b[i]; }
    }
  }

  /** The characters at which the extension scan of `Path.GetExtension` stops:
      an extension separator or a directory separator. */
  predicate IsMark(c: char) {
    c == '.' || c == '/'
  }

  /** The index of the last mark among the first `n` characters of `path`, if any. */
  function LastMark(path: string, n: nat): (k: Option<nat>)
    requires n <= |path|
    ensures k.Some? ==> k.value < n && IsMark(path[k.value])
    ensures k.Some? ==> forall j :: k.value < j < n ==> !IsMark(path[j])
    ensures k.None? ==> forall j :: 0 <= j < n ==> !IsMark(path[j])
  {
    if n == 0 then None
    else if IsMark(path[n - 1]) then Some(n - 1)
    else LastMark(path, n - 1)
  }

  /** The extension starts at index `i`: a '.' that is not the last character,
      followed by no other '.' and no directory separator. */
  ghost predicate ExtensionAt(path: string, i: int) {
    && 0 <= i < |path| - 1
    && path[i] == '.'
    && forall j :: i < j < |path| ==> !IsMark(path[j])
  }

  /** `Path.GetExtension` (with '/' as the directory separator): the suffix that starts
      at the last '.' of the last path segment, or the empty string when that segment has
      no '.' or ends with it. */
  function GetExtension(path: string): (ext: string)
    ensures ext != "" ==> ExtensionAt(path, |path| - |ext|) && ext == path[|path| - |ext|..]
    ensures ext == "" ==> forall i :: !ExtensionAt(path, i)
  {
    match LastMark(path, |path|)
    case None => ""
    case Some(k) => if path[k] == '.' && k < |path| - 1 then path[k..] else ""
  }

  /** An extension found at `i` is the extension: there is at most one such index. */
  lemma ExtensionFrom(path: string, i: int)
    requires ExtensionAt(path, i)
    ensures GetExtension(path) == path[i..]
  {
    var ext := GetExtension(path);
    assert ExtensionAt(path, |path| - |ext|);
  }

  /** Lower-casing keeps every mark where it is. */
  lemma {:induction false} LastMarkOfLower(path: string, n: nat)
    requires n <= |path|
    ensures LastMark(ToLowerInvariant(path), n) == LastMark(path, n)
  {
    if n > 0 {
      LastMarkOfLower(path, n - 1);
    }
  }

  /** The extension of the lower-cased path is the lower-cased extension. */
  lemma ExtensionOfLower(path: string)
    ensures GetExtension(ToLowerInvariant(path)) == ToLowerInvariant(GetExtension(path))
  {
    LastMarkOfLower(path, |path|);
    match LastMark(path, |path|)
    case None =>
    case Some(k) =>
      ToLowerInvariantSuffix(path, k);
  }
}
