/** The string operations of the source's language that the models need. */
module Text {

  /** What ECMAScript's `trim` removes: white space and line terminators. */
  predicate IsSpace(c: char) {
    || c in "\t\n\r "
    || c in ['\U{0B}', '\U{0C}', '\U{A0}', '\U{1680}', '\U{2028}', '\U{2029}', '\U{202F}', '\U{205F}', '\U{3000}',
        '\U{FEFF}']
    || '\U{2000}' <= c <= '\U{200A}'
  }

  function StripStart(s: string, drop: char -> bool): (r: string)
    ensures |r| <= |s|
  {
    if s != "" && drop(s[0]) then StripStart(s[1..], drop) else s
  }

  function StripEnd(s: string, drop: char -> bool): string {
    if s != "" && drop(s[|s| - 1]) then StripEnd(s[..|s| - 1], drop) else s
  }

  lemma {:induction false} StripStartMeaning(s: string, drop: char -> bool)
    ensures var r := StripStart(s, drop);
            && |r| <= |s| && r == s[|s| - |r|..]
            && (r != "" ==> !drop(r[0]))
            && forall i :: 0 <= i < |s| - |r| ==> drop(s[i])
  {
    if s != "" && drop(s[0]) {
      StripStartMeaning(s[1..], drop);
      assert forall i :: 1 <= i < |s| ==> s[i] == s[1..][i - 1];
    }
  }

  lemma {:induction false} StripEndMeaning(s: string, drop: char -> bool)
    ensures var r := StripEnd(s, drop);
            && r <= s
            && (r != "" ==> !drop(r[|r| - 1]))
            && forall i :: |r| <= i < |s| ==> drop(s[i])
  {
    if s != "" && drop(s[|s| - 1]) {
      StripEndMeaning(s[..|s| - 1], drop);
      assert forall i :: 0 <= i < |s| - 1 ==> s[i] == s[..|s| - 1][i];
    }
  }

  function Strip(s: string, drop: char -> bool): string {
    StripEnd(StripStart(s, drop), drop)
  }

  function Trim(s: string): string {
    Strip(s, IsSpace)
  }

  predicate Bare(s: string, drop: char -> bool) {
    s == "" || (!drop(s[0]) && !drop(s[|s| - 1]))
  }

  /** The ends of a stripped string stay, so stripping again changes nothing. */
  lemma StripIsBare(s: string, drop: char -> bool)
    ensures Bare(Strip(s, drop), drop)
    ensures Bare(s, drop) ==> Strip(s, drop) == s
  {
    var front := StripStart(s, drop);
    StripStartMeaning(s, drop);
    StripEndMeaning(front, drop);
    assert Strip(s, drop) != "" ==> Strip(s, drop)[0] == front[0];
  }

  lemma StripToNothing(s: string, drop: char -> bool)
    ensures Strip(s, drop) == "" <==> forall i :: 0 <= i < |s| ==> drop(s[i])
  {
    var front := StripStart(s, drop);
    StripStartMeaning(s, drop);
    StripEndMeaning(front, drop);
    if front != "" {
      assert front[0] == s[|s| - |front|];
    }
  }

  lemma TrimTwice(s: string)
    ensures Trim(Trim(s)) == Trim(s)
  {
    StripIsBare(s, IsSpace);
    StripIsBare(Trim(s), IsSpace);
  }

  lemma {:induction false} StripStartPadded(a: string, s: string, drop: char -> bool)
    requires forall i :: 0 <= i < |a| ==> drop(a[i])
    ensures StripStart(a + s, drop) == StripStart(s, drop)
    decreases |a|
  {
    if a == "" {
      assert a + s == s;
    } else {
      assert (a + s)[1..] == a[1..] + s;
      StripStartPadded(a[1..], s, drop);
    }
  }

  lemma {:induction false} StripEndPadded(s: string, b: string, drop: char -> bool)
    requires forall i :: 0 <= i < |b| ==> drop(b[i])
    ensures StripEnd(s + b, drop) == StripEnd(s, drop)
    decreases |b|
  {
    if b == "" {
      assert s + b == s;
    } else {
      var n := |b| - 1;
      assert (s + b)[..|s + b| - 1] == s + b[..n];
      StripEndPadded(s, b[..n], drop);
    }
  }

  lemma {:induction false} StripStartGoesOn(s: string, b: string, drop: char -> bool)
    requires StripStart(s, drop) != ""
    ensures StripStart(s + b, drop) == StripStart(s, drop) + b
    decreases |s|
  {
    if drop(s[0]) {
      assert (s + b)[1..] == s[1..] + b;
      StripStartGoesOn(s[1..], b, drop);
    }
  }

  /** What is stripped may as well be there as not. */
  lemma StripIgnoresPadding(a: string, s: string, b: string, drop: char -> bool)
    requires forall i :: 0 <= i < |a| ==> drop(a[i])
    requires forall i :: 0 <= i < |b| ==> drop(b[i])
    ensures Strip(a + s + b, drop) == Strip(s, drop)
  {
    assert a + s + b == a + (s + b);
    StripStartPadded(a, s + b, drop);
    if StripStart(s, drop) == "" {
      StripStartMeaning(s, drop);
      StripToNothing(s + b, drop);
    } else {
      StripStartGoesOn(s, b, drop);
      StripEndPadded(StripStart(s, drop), b, drop);
    }
  }

  /** White space and line terminators of ECMAScript, by code point. */
  lemma SpacesAre(c: char)
    ensures IsSpace(c) <==>
        c as int in {0x09, 0x0A, 0x0B, 0x0C, 0x0D, 0x20, 0xA0, 0x1680, 0x2028, 0x2029, 0x202F, 0x205F,
                                         0x3000, 0xFEFF} || 0x2000 <= c as int <= 0x200A
  {
  }
}
