/** The stored path of an uploaded blog image:
    `path.replace(/\\/g, '/').replace(/^.*\/uploads/, 'uploads')`.

    In a JavaScript regular expression `.` matches anything but a line
    terminator, and `^` without the `m` flag anchors at the start of the
    text, so `^.*\/uploads` matches from the start to the LAST `/uploads`
    that lies on the first line. */
module UploadPath {
  import opened Common

  /** `\n`, `\r`, U+2028 and U+2029: the characters `.` does not match. */
  predicate IsLineTerminator(c: char)
  {
    c == '\n' || c == '\r' || c == '\U{2028}' || c == '\U{2029}'
  }

  /** `replace(/\\/g, '/')`: every backslash becomes a slash. */
  function Slashes(p: string): (r: string)
    ensures |r| == |p|
    ensures forall k :: 0 <= k < |p| ==> r[k] == if p[k] == '\\' then '/' else p[k]
  {
    if p == [] then []
    else [if p[0] == '\\' then '/' else p[0]] + Slashes(p[1..])
  }

  /** The length of the first line: the index of the first line terminator,
      or the length of the text when there is none. */
  function LineEnd(s: string): (e: nat)
    ensures e <= |s|
    ensures forall i :: 0 <= i < e ==> !IsLineTerminator(s[i])
    ensures e < |s| ==> IsLineTerminator(s[e])
  {
    if s == [] || IsLineTerminator(s[0]) then 0 else 1 + LineEnd(s[1..])
  }

  /** The text has `/uploads` at position `k`. */
  predicate UploadsAt(s: string, k: nat)
  {
    k + 8 <= |s| && s[k..k + 8] == "/uploads"
  }

  /** The last `/uploads` at a position up to `k`. */
  function LastUploads(s: string, k: nat): (r: Option<nat>)
    ensures r.Some? ==> UploadsAt(s, r.value)
  {
    if UploadsAt(s, k) then Some(k)
    else if k == 0 then None
    else LastUploads(s, k - 1)
  }

  /** Where `^.*\/uploads` matches: the `.*` before it spans no line
      terminator, and being greedy it takes the last such occurrence. */
  function UploadsMatch(s: string): (r: Option<nat>)
    ensures r.Some? ==> UploadsAt(s, r.value)
  {
    LastUploads(s, LineEnd(s))
  }

  /** The stored image path. */
  function NormalizeUploadPath(p: string): string
  {
    var s := Slashes(p);
    match UploadsMatch(s)
    case None => s
    case Some(k) => "uploads" + s[k + 8..]
  }

  lemma {:induction false} LastUploadsSpec(s: string, k: nat)
    ensures LastUploads(s, k).Some? ==>
      var m := LastUploads(s, k).value;
      m <= k && UploadsAt(s, m) && forall j :: m < j <= k ==> !UploadsAt(s, j)
    ensures LastUploads(s, k).None? ==> forall j :: 0 <= j <= k ==> !UploadsAt(s, j)
  {
    if !UploadsAt(s, k) && k > 0 {
      LastUploadsSpec(s, k - 1);
    }
  }

  /** The match is the last `/uploads` on the first line, and there is none
      exactly when the first line holds no `/uploads`. */
  lemma UploadsMatchSpec(s: string)
    ensures UploadsMatch(s).Some? ==>
      var k := UploadsMatch(s).value;
      k <= LineEnd(s) && UploadsAt(s, k) && forall j :: k < j <= LineEnd(s) ==> !UploadsAt(s, j)
    ensures UploadsMatch(s).None? ==> forall j :: 0 <= j <= LineEnd(s) ==> !UploadsAt(s, j)
  {
    LastUploadsSpec(s, LineEnd(s));
  }

  /** No backslash is left in the stored path. */
  lemma NoBackslash(p: string)
    ensures '\\' !in NormalizeUploadPath(p)
  {
    var s := Slashes(p);
    assert '\\' !in s;
    match UploadsMatch(s)
    case None =>
    case Some(k) =>
      var t := s[k + 8..];
      assert forall i :: 0 <= i < |t| ==> t[i] == s[k + 8 + i];
      assert '\\' !in "uploads";
  }

  lemma SlashesUnchanged(s: string)
    requires '\\' !in s
    ensures Slashes(s) == s
  {
  }

  /** `LineEnd` is determined by its contract. */
  lemma LineEndUnique(s: string, e: nat)
    requires e <= |s| && (forall i :: 0 <= i < e ==> !IsLineTerminator(s[i]))
    requires e < |s| ==> IsLineTerminator(s[e])
    ensures LineEnd(s) == e
  {
  }

  /** After a match, the rest of the text holds no `/uploads` on its first
      line: it would have been a later match. */
  lemma RestHasNoMatch(s: string, k: nat)
    requires UploadsMatch(s) == Some(k)
    ensures var t := s[k + 8..];
      LineEnd(s) == k + 8 + LineEnd(t) &&
      forall i :: 0 <= i <= LineEnd(t) ==> !UploadsAt(t, i)
  {
    UploadsMatchSpec(s);
    var t := s[k + 8..];
    assert s[k..k + 8] == "/uploads";
    forall i | 0 <= i < k + 8
      ensures !IsLineTerminator(s[i])
    {
      if i >= k {
        assert s[i] == s[k..k + 8][i - k];
      }
    }
    forall i | 0 <= i < k + 8 + LineEnd(t)
      ensures !IsLineTerminator(s[i])
    {
      if i >= k + 8 {
        assert s[i] == t[i - k - 8];
      }
    }
    if k + 8 + LineEnd(t) < |s| {
      assert s[k + 8 + LineEnd(t)] == t[LineEnd(t)];
    }
    LineEndUnique(s, k + 8 + LineEnd(t));
    forall i | 0 <= i <= LineEnd(t)
      ensures !UploadsAt(t, i)
    {
      if i + 8 <= |t| {
        assert s[k + 8 + i..k + 16 + i] == t[i..i + 8];
        assert !UploadsAt(s, k + 8 + i);
      }
    }
  }

  /** Putting `uploads` in front lengthens the first line by seven. */
  lemma PrefixedLineEnd(t: string)
    ensures LineEnd("uploads" + t) == 7 + LineEnd(t)
  {
    var r := "uploads" + t;
    forall i | 0 <= i < 7 + LineEnd(t)
      ensures !IsLineTerminator(r[i])
    {
      if i >= 7 {
        assert r[i] == t[i - 7];
      } else {
        assert r[i] == "uploads"[i];
      }
    }
    if 7 + LineEnd(t) < |r| {
      assert r[7 + LineEnd(t)] == t[LineEnd(t)];
    }
    LineEndUnique(r, 7 + LineEnd(t));
  }

  /** A `/uploads` in `uploads` followed by `t` starts inside `t`, since
      `uploads` holds no `/`. */
  lemma PrefixedUploadsAt(t: string, j: nat)
    requires UploadsAt("uploads" + t, j)
    ensures j >= 7 && UploadsAt(t, j - 7)
  {
    var r := "uploads" + t;
    assert r[j] == r[j..j + 8][0] == '/';
    assert r[j..j + 8] == t[j - 7..j + 1];
  }

  /** A text that starts with `uploads` and continues with a text holding
      no `/uploads` on its first line has no match itself. */
  lemma PrefixedNoMatch(t: string)
    requires forall i :: 0 <= i <= LineEnd(t) ==> !UploadsAt(t, i)
    ensures UploadsMatch("uploads" + t).None?
  {
    var r := "uploads" + t;
    PrefixedLineEnd(t);
    if UploadsMatch(r).Some? {
      var j := UploadsMatch(r).value;
      UploadsMatchSpec(r);
      PrefixedUploadsAt(t, j);
      assert false;
    }
  }

  /** Normalising a stored path again changes nothing. */
  lemma NormalizeIdempotent(p: string)
    ensures NormalizeUploadPath(NormalizeUploadPath(p)) == NormalizeUploadPath(p)
  {
    var s := Slashes(p);
    var r := NormalizeUploadPath(p);
    NoBackslash(p);
    SlashesUnchanged(r);
    match UploadsMatch(s)
    case None =>
    case Some(k) =>
      RestHasNoMatch(s, k);
      PrefixedNoMatch(s[k + 8..]);
  }
}
