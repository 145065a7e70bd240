/** What normalisation accepts and what it makes of a value, without its steps. */
module IdentityLaws {
  import opened Prelude
  import opened Text
  import opened Identity

  /** A letter or digit once lower-cased: the two characters outside ASCII are the Kelvin sign and the dotted capital
      I. */
  predicate LetterOrDigit(c: char) {
    'a' <= c <= 'z' || 'A' <= c <= 'Z' || '0' <= c <= '9' || c == '\U{212A}' || c == '\U{0130}'
  }

  lemma LowerCharMeaning(c: char)
    ensures HasAlphanumeric(LowerChar(c)) <==> LetterOrDigit(c)
  {
    if LetterOrDigit(c) {
      assert Alphanumeric(LowerChar(c)[0]);
    }
  }

  predicate HasLetterOrDigit(s: string) {
    exists i :: 0 <= i < |s| && LetterOrDigit(s[i])
  }

  lemma {:induction false} LowerMeaning(s: string)
    ensures HasAlphanumeric(Lower(s)) <==> HasLetterOrDigit(s)
    decreases |s|
  {
    if s != "" {
      LowerCharMeaning(s[0]);
      LowerMeaning(s[1..]);
      HeadAndTail(Lower(s), |LowerChar(s[0])|);
      assert Lower(s)[..|LowerChar(s[0])|] == LowerChar(s[0]) && Lower(s)[|LowerChar(s[0])|..] == Lower(s[1..]);
      if HasLetterOrDigit(s[1..]) {
        var i :| 0 <= i < |s| - 1 && LetterOrDigit(s[1..][i]);
        assert LetterOrDigit(s[i + 1]);
      }
    }
  }

  /** What trimming leaves is a slice that keeps every character that is no white space. */
  lemma TrimIsSlice(s: string) returns (k: nat)
    ensures k + |Trim(s)| <= |s| && Trim(s) == s[k..k + |Trim(s)|]
    ensures forall i :: 0 <= i < |s| && !(k <= i < k + |Trim(s)|) ==> IsSpace(s[i])
  {
    var front := StripStart(s, IsSpace);
    k := |s| - |front|;
    StripStartMeaning(s, IsSpace);
    StripEndMeaning(front, IsSpace);
    assert front == s[k..];
    assert forall i :: k <= i < |s| ==> s[i] == front[i - k];
  }

  lemma LetterIsNoSpace(c: char)
    ensures LetterOrDigit(c) ==> !IsSpace(c)
  {
  }

  lemma TrimKeepsLetters(s: string)
    ensures HasLetterOrDigit(Trim(s)) <==> HasLetterOrDigit(s)
  {
    var k := TrimIsSlice(s);
    if HasLetterOrDigit(s) {
      var i :| 0 <= i < |s| && LetterOrDigit(s[i]);
      LetterIsNoSpace(s[i]);
      assert Trim(s)[i - k] == s[i];
    }
    if HasLetterOrDigit(Trim(s)) {
      var j :| 0 <= j < |Trim(s)| && LetterOrDigit(Trim(s)[j]);
      assert LetterOrDigit(s[j + k]);
    }
  }

  /** A value is accepted exactly when it has a letter or a digit. */
  lemma AcceptedExactly(value: string)
    ensures Normalize(value).Some? <==> HasLetterOrDigit(value)
  {
    CleanMeaning(value);
    LowerMeaning(Trim(value));
    TrimKeepsLetters(value);
  }

  /** White space around a value does not matter. */
  lemma BlanksAreForgotten(a: string, value: string, b: string)
    requires forall i :: 0 <= i < |a| ==> IsSpace(a[i])
    requires forall i :: 0 <= i < |b| ==> IsSpace(b[i])
    ensures Normalize(a + value + b) == Normalize(value)
  {
    StripIgnoresPadding(a, value, b, IsSpace);
  }

  predicate SameUpToCase(value: string, id: string) {
    |value| == |id| && forall i :: 0 <= i < |id| ==>
      value[i] == id[i] || ('A' <= value[i] <= 'Z' && value[i] as int + 32 == id[i] as int)
  }

  lemma {:induction false} LowersToId(value: string, id: string)
    requires SameUpToCase(value, id) && AllAllowed(id)
    ensures Lower(value) == id
    decreases |id|
  {
    if id != "" {
      LowersToId(value[1..], id[1..]);
      assert LowerChar(value[0]) == [id[0]];
      assert id == [id[0]] + id[1..];
    }
  }

  lemma EndsAreNoSpace(s: string)
    requires Bare(s, IsSpace)
    ensures Trim(s) == s
  {
    StripIsBare(s, IsSpace);
  }

  /** Case does not matter: an identity in capitals, in part or whole, is that identity. */
  lemma CaseIsForgotten(value: string, id: string)
    requires Normalized(id) && SameUpToCase(value, id)
    ensures Normalize(value) == Some(id)
  {
    AllowedIsNotSpace(id[0]);
    AllowedIsNotSpace(id[|id| - 1]);
    EndsAreNoSpace(value);
    EndsAreNoSpace(id);
    LowersToId(value, id);
    LowerFixesAllowed(id);
    IdentitiesAreFixed(id);
    assert Clean(value) == Clean(id);
  }

  /** Characters that no identity has, and that lower-casing leaves alone. */
  predicate Junk(s: string) {
    s != "" && forall i :: 0 <= i < |s| ==> !Allowed(s[i]) && LowerChar(s[i]) == [s[i]]
  }

  lemma {:induction false} LowerFixes(s: string)
    requires forall i :: 0 <= i < |s| ==> LowerChar(s[i]) == [s[i]]
    ensures Lower(s) == s
    decreases |s|
  {
    if s != "" {
      LowerFixes(s[1..]);
      assert s == [s[0]] + s[1..];
    }
  }

  lemma {:induction false} SquashJoins(a: string, junk: string, b: string)
    requires AllAllowed(a) && Junk(junk) && AllAllowed(b) && b != ""
    ensures Squash(a + (junk + b)) == a + ("-" + b)
    decreases |a|
  {
    var rest := junk + b;
    if a == "" {
      assert a + rest == rest && rest[0] == junk[0];
      StripStartPadded(junk, b, c => !Allowed(c));
      SquashFixes(b);
      assert a + ("-" + b) == "-" + b;
    } else {
      SquashJoins(a[1..], junk, b);
      assert (a + rest)[1..] == a[1..] + rest;
      assert a + ("-" + b) == [a[0]] + (a[1..] + ("-" + b));
    }
  }

  lemma JoinedIsNormalized(a: string, b: string)
    requires Normalized(a) && Normalized(b) && |a| + 1 + |b| <= MAX_ID
    ensures Normalized(a + ("-" + b))
  {
  }

  lemma JunkBetween(a: string, junk: string, b: string)
    requires Normalized(a) && Normalized(b) && Junk(junk)
    ensures Trim(a + (junk + b)) == a + (junk + b) && Lower(a + (junk + b)) == a + (junk + b)
  {
    var v := a + (junk + b);
    AllowedIsNotSpace(a[0]);
    AllowedIsNotSpace(b[|b| - 1]);
    assert v[0] == a[0] && v[|v| - 1] == b[|b| - 1];
    EndsAreNoSpace(v);
    LowerFixes(v);
  }

  /** Any run of other characters between two identities becomes one hyphen. */
  lemma RunsBecomeOneHyphen(a: string, junk: string, b: string)
    requires Normalized(a) && Normalized(b) && Junk(junk) && |a| + 1 + |b| <= MAX_ID
    ensures Normalize(a + (junk + b)) == Some(a + ("-" + b))
  {
    var v, w := a + (junk + b), a + ("-" + b);
    JunkBetween(a, junk, b);
    SquashJoins(a, junk, b);
    JoinedIsNormalized(a, b);
    IdentitiesAreFixed(w);
    AllowedIsNotSpace(w[0]);
    AllowedIsNotSpace(w[|w| - 1]);
    EndsAreNoSpace(w);
    LowerFixesAllowed(w);
    SquashFixes(w);
    assert Clean(v) == Clean(w);
  }

  /** A longer value is cut to 64 characters, and then loses the punctuation at its end. */
  lemma LongValuesAreCut(s: string)
    requires AllAllowed(s) && NoDoubleHyphen(s) && |s| > MAX_ID && Alphanumeric(s[0]) && Alphanumeric(s[|s| - 1])
    ensures Normalize(s).Some?
    ensures var id := Normalize(s).value;
            && id <= s && |id| <= 64
            && forall i :: |id| <= i < 64 ==> Edge(s[i])
  {
    AllowedIsNotSpace(s[0]);
    AllowedIsNotSpace(s[|s| - 1]);
    CleanFixes(s);
    CutIsNormalized(s);
    StripEndMeaning(s[..MAX_ID], Edge);
    assert s[..MAX_ID] <= s;
  }
}
