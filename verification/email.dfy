/** The e-mail check `/^[^\s@]+@[^\s@]+\.[^\s@]+$/` shared by the profile
    update and the newsletter subscription. It is a loose shape test, not the
    addr-spec grammar of RFC 5322. */
module EmailPattern {
  import opened Common
  import opened Text

  /** A character of the class `[^\s@]`. */
  predicate PieceChar(c: char)
  {
    !IsWhitespace(c) && c != '@'
  }

  /** A run `[^\s@]+`. */
  predicate Piece(t: string)
  {
    |t| > 0 && forall i :: 0 <= i < |t| ==> PieceChar(t[i])
  }

  /** What the regular expression matches: the whole string is a run, an '@',
      a run, a '.', and a run. Because `[^\s@]` admits '.', the host run may
      itself contain dots; the split is at some '.' after the '@'. */
  ghost predicate MatchesPattern(s: string)
  {
    exists i, j :: 0 < i && i + 1 < j && j + 1 < |s| && s[i] == '@' && s[j] == '.' &&
      Piece(s[..i]) && Piece(s[i + 1..j]) && Piece(s[j + 1..])
  }

  /** A '.' in `d` with at least one character on each side. */
  predicate HasInnerDot(d: string)
  {
    exists k | 0 < k < |d| - 1 :: d[k] == '.'
  }

  /** `emailRegex.test(s)`, decided the way a reader checks it: exactly one
      '@', no white space anywhere, something before the '@', and after it a
      '.' with at least one character on each side. */
  predicate IsValidEmail(s: string)
  {
    CountChar(s, '@') == 1 && NoWhitespace(s) &&
    var i := IndexOf(s, '@');
    i > 0 && HasInnerDot(s[i + 1..])
  }

  /** A slice free of white space and of '@' is a run. */
  lemma SliceIsPiece(s: string, lo: nat, hi: nat)
    requires lo < hi <= |s|
    requires NoWhitespace(s)
    requires forall k :: lo <= k < hi ==> s[k] != '@'
    ensures Piece(s[lo..hi])
  {
    forall m | 0 <= m < hi - lo
      ensures PieceChar(s[lo..hi][m])
    {
      assert s[lo..hi][m] == s[lo + m];
    }
  }

  /** The characters of a run are neither white space nor '@'. */
  lemma PieceChars(s: string, lo: nat, hi: nat)
    requires lo <= hi <= |s|
    requires Piece(s[lo..hi])
    ensures forall k :: lo <= k < hi ==> PieceChar(s[k])
  {
    forall k | lo <= k < hi
      ensures PieceChar(s[k])
    {
      assert s[k] == s[lo..hi][k - lo];
    }
  }

  lemma NoAtAfter(s: string, i: nat)
    requires i < |s| && CountChar(s, '@') == 1 && s[i] == '@' && '@' !in s[..i]
    ensures forall k :: i < k < |s| ==> s[k] != '@'
  {
    assert s == s[..i] + ([s[i]] + s[i + 1..]);
    CountSplit(s[..i], [s[i]] + s[i + 1..], '@');
    CountSplit([s[i]], s[i + 1..], '@');
    forall k | i < k < |s|
      ensures s[k] != '@'
    {
      assert s[k] == s[i + 1..][k - i - 1];
    }
  }

  lemma ValidEmailHasPattern(s: string)
    requires IsValidEmail(s)
    ensures MatchesPattern(s)
  {
    var i := IndexOf(s, '@');
    var d := s[i + 1..];
    var k :| 0 < k < |d| - 1 && d[k] == '.';
    var j := i + 1 + k;
    NoAtAfter(s, i);
    forall m | 0 <= m < i
      ensures s[m] != '@'
    {
      assert s[m] == s[..i][m];
    }
    SliceIsPiece(s, 0, i);
    SliceIsPiece(s, i + 1, j);
    SliceIsPiece(s, j + 1, |s|);
    assert s[..i] == s[0..i];
    assert s[j + 1..] == s[j + 1..|s|];
    assert s[j] == d[k];
  }

  /** The facts about a string split as the pattern splits it. */
  lemma PatternParts(s: string, i: nat, j: nat)
    requires 0 < i && i + 1 < j && j + 1 < |s| && s[i] == '@' && s[j] == '.'
    requires Piece(s[..i]) && Piece(s[i + 1..j]) && Piece(s[j + 1..])
    ensures NoWhitespace(s)
    ensures forall k :: 0 <= k < |s| && k != i ==> s[k] != '@'
  {
    assert s[..i] == s[0..i];
    assert s[j + 1..] == s[j + 1..|s|];
    PieceChars(s, 0, i);
    PieceChars(s, i + 1, j);
    PieceChars(s, j + 1, |s|);
  }

  lemma OneAt(s: string, i: nat)
    requires i < |s| && s[i] == '@'
    requires forall k :: 0 <= k < |s| && k != i ==> s[k] != '@'
    ensures CountChar(s, '@') == 1 && '@' !in s[..i]
  {
    var b, d := s[..i], s[i + 1..];
    assert '@' !in b by {
      forall k | 0 <= k < |b|
        ensures b[k] != '@'
      {
        assert b[k] == s[k];
      }
    }
    assert '@' !in d by {
      forall k | 0 <= k < |d|
        ensures d[k] != '@'
      {
        assert d[k] == s[i + 1 + k];
      }
    }
    assert s == b + ([s[i]] + d);
    OneOccurrence(b, d, '@');
  }

  lemma OneOccurrence(b: string, d: string, c: char)
    requires c !in b && c !in d
    ensures CountChar(b + ([c] + d), c) == 1
  {
    CountSplit(b, [c] + d, c);
    CountSplit([c], d, c);
    assert CountChar([c], c) == 1 by {
      assert [c][1..] == [];
    }
  }

  lemma PatternIsValidEmail(s: string)
    requires MatchesPattern(s)
    ensures IsValidEmail(s)
  {
    var i, j :| 0 < i && i + 1 < j && j + 1 < |s| && s[i] == '@' && s[j] == '.' &&
      Piece(s[..i]) && Piece(s[i + 1..j]) && Piece(s[j + 1..]);
    PatternParts(s, i, j);
    OneAt(s, i);
    IndexOfUnique(s, '@', i);
    assert s[i + 1..][j - i - 1] == '.';
  }

  lemma IndexOfUnique(s: string, c: char, i: nat)
    requires i < |s| && s[i] == c && c !in s[..i]
    ensures c in s && IndexOf(s, c) == i
  {
  }

  /** The direct check and the regular expression accept the same strings. */
  lemma ValidEmailMatchesPattern(s: string)
    ensures IsValidEmail(s) <==> MatchesPattern(s)
  {
    if IsValidEmail(s) {
      ValidEmailHasPattern(s);
    }
    if MatchesPattern(s) {
      PatternIsValidEmail(s);
    }
  }

  /** The text that `emailRegex.test` sees: a missing address is converted to
      the string "undefined". */
  function RegexInput(email: Option<string>): string
  {
    if email.Some? then email.value else "undefined"
  }

  /** A missing address never passes the check. */
  lemma MissingEmailRejected()
    ensures !IsValidEmail(RegexInput(None))
  {
    var u := RegexInput(None);
    assert u == ['u', 'n', 'd', 'e', 'f', 'i', 'n', 'e', 'd'];
    assert '@' !in u;
    assert CountChar(u, '@') == 0;
  }

  /** `emailRegex.test(email)` on a body field that may be missing. */
  predicate EmailAccepted(email: Option<string>)
  {
    email.Some? && IsValidEmail(email.value)
  }

  /** The check on the optional field is the check on the text the regular
      expression sees. */
  lemma EmailAcceptedOnInput(email: Option<string>)
    ensures EmailAccepted(email) <==> IsValidEmail(RegexInput(email))
  {
    MissingEmailRejected();
  }
}
