/** The title of a skill card: `skill.replace(/([A-Z])/g, ' $1').trim()`,
    which turns a camel-case key into words. */
module SkillCard {
  import opened Text

  /** `replace(/([A-Z])/g, ' $1')`: a space before every ASCII capital. */
  function SpaceCapitals(s: string): (r: string)
    ensures forall j :: 0 <= j < |r| && IsAsciiUpper(r[j]) ==> j >= 1 && r[j - 1] == ' '
  {
    if s == [] then []
    else
      var rest := SpaceCapitals(s[..|s| - 1]);
      var c := s[|s| - 1];
      if IsAsciiUpper(c) then rest + [' ', c] else rest + [c]
  }

  /** The card title. */
  function Label(s: string): string
  {
    Trim(SpaceCapitals(s))
  }

  /** The text with every white-space character deleted. */
  function Squeeze(s: string): string
  {
    if s == [] then []
    else Squeeze(s[..|s| - 1]) + (if IsWhitespace(s[|s| - 1]) then [] else [s[|s| - 1]])
  }

  lemma {:induction false} SqueezeAppend(a: string, b: string)
    ensures Squeeze(a + b) == Squeeze(a) + Squeeze(b)
  {
    if b == [] {
      assert a + b == a;
    } else {
      var n := |b| - 1;
      SqueezeAppend(a, b[..n]);
      assert (a + b)[..|a + b| - 1] == a + b[..n];
    }
  }

  lemma {:induction false} SqueezeBlank(s: string)
    requires forall i :: 0 <= i < |s| ==> IsWhitespace(s[i])
    ensures Squeeze(s) == []
  {
    if s != [] {
      SqueezeBlank(s[..|s| - 1]);
    }
  }

  /** Cutting blank text off the front changes nothing once white space is
      deleted. */
  lemma BlankFront(s: string, t: string)
    requires |t| <= |s| && t == s[|s| - |t|..]
    requires forall i :: 0 <= i < |s| - |t| ==> IsWhitespace(s[i])
    ensures Squeeze(t) == Squeeze(s)
  {
    var a := s[..|s| - |t|];
    assert s == a + t;
    SqueezeAppend(a, t);
    forall i | 0 <= i < |a|
      ensures IsWhitespace(a[i])
    {
      assert a[i] == s[i];
    }
    SqueezeBlank(a);
  }

  /** Likewise for blank text cut off the back. */
  lemma BlankBack(t: string, r: string)
    requires |r| <= |t| && r == t[..|r|]
    requires forall i :: |r| <= i < |t| ==> IsWhitespace(t[i])
    ensures Squeeze(r) == Squeeze(t)
  {
    var c := t[|r|..];
    assert t == r + c;
    SqueezeAppend(r, c);
    forall i | 0 <= i < |c|
      ensures IsWhitespace(c[i])
    {
      assert c[i] == t[|r| + i];
    }
    SqueezeBlank(c);
  }

  /** Trimming deletes only white space. */
  lemma TrimSqueeze(s: string)
    ensures Squeeze(Trim(s)) == Squeeze(s)
  {
    var t := TrimStart(s);
    BlankFront(s, t);
    BlankBack(t, TrimEnd(t));
  }

  lemma {:induction false} SpaceCapitalsSqueeze(s: string)
    ensures Squeeze(SpaceCapitals(s)) == Squeeze(s)
  {
    if s != [] {
      var n := |s| - 1;
      var rest := SpaceCapitals(s[..n]);
      SpaceCapitalsSqueeze(s[..n]);
      if IsAsciiUpper(s[n]) {
        SqueezeAppend(rest, [' ', s[n]]);
        assert Squeeze([' ', s[n]]) == [s[n]] by {
          assert [' ', s[n]][..1] == [' '];
          assert Squeeze([' ']) == [] by {
            assert [' '][..0] == [];
          }
        }
      } else {
        SqueezeAppend(rest, [s[n]]);
      }
    }
  }

  /** Only spacing changes: deleting all white space from the title and from
      the key gives the same text. */
  lemma LabelKeepsText(s: string)
    ensures Squeeze(Label(s)) == Squeeze(s)
  {
    TrimSqueeze(SpaceCapitals(s));
    SpaceCapitalsSqueeze(s);
  }

  /** A space before every ASCII capital but the first character. */
  predicate CapitalsSpaced(s: string)
  {
    forall i :: 0 < i < |s| && IsAsciiUpper(s[i]) ==> s[i - 1] == ' '
  }

  /** Taking a middle part keeps the spacing of capitals. */
  lemma SpacedMiddle(s: string, t: string, r: string)
    requires |t| <= |s| && t == s[|s| - |t|..]
    requires |r| <= |t| && r == t[..|r|]
    requires forall j :: 0 <= j < |s| && IsAsciiUpper(s[j]) ==> j >= 1 && s[j - 1] == ' '
    ensures CapitalsSpaced(r)
  {
    var p := |s| - |t|;
    forall i | 0 < i < |r| && IsAsciiUpper(r[i])
      ensures r[i - 1] == ' '
    {
      assert r[i] == s[p + i];
      assert r[i - 1] == s[p + i - 1];
    }
  }

  /** Every ASCII capital of the title that is not its first character has
      a space before it, consecutive capitals included. */
  lemma LabelSpacing(s: string)
    ensures CapitalsSpaced(Label(s))
  {
    var sp := SpaceCapitals(s);
    var t := TrimStart(sp);
    SpacedMiddle(sp, t, TrimEnd(t));
  }

  /** A trimmed text neither starts nor ends with white space. */
  lemma TrimmedEnds(x: string)
    ensures var l := Trim(x); l == [] || (!IsWhitespace(l[0]) && !IsWhitespace(l[|l| - 1]))
  {
    var t := TrimStart(x);
    var l := TrimEnd(t);
    if l != [] {
      assert l[0] == t[0];
    }
  }

  /** So a leading capital gives the title no leading space. */
  lemma LabelTrimmed(s: string)
    ensures var l := Label(s); l == [] || (!IsWhitespace(l[0]) && !IsWhitespace(l[|l| - 1]))
  {
    TrimmedEnds(SpaceCapitals(s));
  }

  /** A key with no ASCII capital and no surrounding white space is its own
      title; capitals outside A-Z, such as `É`, get no space. */
  lemma {:induction false} LabelUnchanged(s: string)
    requires forall i :: 0 <= i < |s| ==> !IsAsciiUpper(s[i])
    requires s == [] || (!IsWhitespace(s[0]) && !IsWhitespace(s[|s| - 1]))
    ensures Label(s) == s
  {
    NoCapitalsUnchanged(s);
  }

  lemma {:induction false} NoCapitalsUnchanged(s: string)
    requires forall i :: 0 <= i < |s| ==> !IsAsciiUpper(s[i])
    ensures SpaceCapitals(s) == s
  {
    if s != [] {
      NoCapitalsUnchanged(s[..|s| - 1]);
      assert s == s[..|s| - 1] + [s[|s| - 1]];
    }
  }
}
