/** Sandbox identities: how ids and names are normalised and qualified. */
module Identity {
  import opened Prelude
  import opened Text

  predicate Alphanumeric(c: char) {
    'a' <= c <= 'z' || '0' <= c <= '9'
  }

  predicate Edge(c: char) {
    c == '.' || c == '_' || c == '-'
  }

  predicate Allowed(c: char) {
    Alphanumeric(c) || Edge(c)
  }

  /** Lower-casing one character. Besides A-Z only U+212A and U+0130 give an ASCII letter; what the other
      characters become is never allowed in an identity, so they are left as they are. */
  function LowerChar(c: char): string {
    if 'A' <= c <= 'Z' then [(c as int + 32) as char]
    else if c == '\U{212A}' then "k"
    else if c == '\U{0130}' then ['i', '\U{0307}']
    else [c]
  }

  function Lower(s: string): string {
    if s == "" then "" else LowerChar(s[0]) + Lower(s[1..])
  }

  /** `replace(/[^a-z0-9._-]+/g, '-')` */
  function Squash(s: string): string
    decreases |s|
  {
    if s == "" then ""
    else if Allowed(s[0]) then [s[0]] + Squash(s[1..])
    else "-" + Squash(StripStart(s, c => !Allowed(c)))
  }

  /** `replace(/-+/g, '-')` */
  function Collapse(s: string): string
    decreases |s|
  {
    if s == "" then ""
    else if s[0] != '-' then [s[0]] + Collapse(s[1..])
    else "-" + Collapse(StripStart(s, c => c == '-'))
  }

  const MAX_ID := 64
  const MAX_NAME := 120

  function Clean(value: string): string {
    Strip(Collapse(Squash(Lower(Trim(value)))), Edge)
  }

  /** `normalizeSegment`; `None` is the error it throws. */
  function Normalize(value: string): Option<string> {
    var cleaned := Clean(value);
    if cleaned == "" then None
    else if |cleaned| > MAX_ID then
      var cut := StripEnd(cleaned[..MAX_ID], Edge);
      Some(if cut != "" then cut else cleaned[..MAX_ID])
    else Some(cleaned)
  }

  predicate NoDoubleHyphen(s: string) {
    forall i, j :: 0 <= i < |s| && 0 <= j < |s| && j == i + 1 ==> !(s[i] == '-' && s[j] == '-')
  }

  predicate AllAllowed(s: string) {
    forall i :: 0 <= i < |s| ==> Allowed(s[i])
  }

  /** The identities there are. */
  predicate Normalized(s: string) {
    0 < |s| <= MAX_ID && AllAllowed(s) && Alphanumeric(s[0]) && Alphanumeric(s[|s| - 1]) && NoDoubleHyphen(s)
  }

  predicate HasAlphanumeric(s: string) {
    exists i :: 0 <= i < |s| && Alphanumeric(s[i])
  }

  /** What follows the part of `s` that the first character of `Squash(s)` stands for. */
  function AfterSquashed(s: string): string
    requires s != ""
  {
    if Allowed(s[0]) then s[1..] else StripStart(s, c => !Allowed(c))
  }

  lemma SquashStep(s: string)
    requires s != ""
    ensures var rest := AfterSquashed(s);
            && |rest| < |s| && s[|s| - |rest|..] == rest
            && Squash(s) == [if Allowed(s[0]) then s[0] else '-'] + Squash(rest)
            && (HasAlphanumeric(s[..|s| - |rest|]) <==> Alphanumeric(s[0]))
  {
    var rest := AfterSquashed(s);
    StripStartMeaning(s, c => !Allowed(c));
    assert s[..|s| - |rest|][0] == s[0];
  }

  lemma {:induction false} SquashMeaning(s: string)
    ensures AllAllowed(Squash(s))
    ensures HasAlphanumeric(Squash(s)) <==> HasAlphanumeric(s)
    decreases |s|
  {
    if s != "" {
      var rest := AfterSquashed(s);
      SquashStep(s);
      SquashMeaning(rest);
      HeadAndTail(s, |s| - |rest|);
      var head := [if Allowed(s[0]) then s[0] else '-'];
      HeadAndTail(Squash(s), 1);
      assert Squash(s)[..1] == head && Squash(s)[1..] == Squash(rest);
      assert HasAlphanumeric(head) <==> Alphanumeric(head[0]);
    }
  }

  lemma {:induction false} SquashFixes(s: string)
    requires AllAllowed(s)
    ensures Squash(s) == s
  {
    if s != "" {
      SquashFixes(s[1..]);
    }
  }

  lemma HeadAndTail(s: string, k: nat)
    requires k <= |s|
    ensures HasAlphanumeric(s) <==> HasAlphanumeric(s[..k]) || HasAlphanumeric(s[k..])
    ensures AllAllowed(s) <==> AllAllowed(s[..k]) && AllAllowed(s[k..])
  {
    if HasAlphanumeric(s) {
      var i :| 0 <= i < |s| && Alphanumeric(s[i]);
      assert if i < k then s[..k][i] == s[i] else s[k..][i - k] == s[i];
    }
    assert forall i :: k <= i < |s| ==> s[i] == s[k..][i - k];
  }

  /** What follows the part of `s` that the first character of `Collapse(s)` stands for. */
  function AfterHead(s: string): string
    requires s != ""
  {
    if s[0] != '-' then s[1..] else StripStart(s, c => c == '-')
  }

  lemma CollapseStep(s: string)
    requires s != ""
    ensures |AfterHead(s)| < |s| && s == s[..|s| - |AfterHead(s)|] + AfterHead(s)
    ensures Collapse(s) == [s[0]] + Collapse(AfterHead(s))
    ensures s[0] == '-' && AfterHead(s) != "" ==> AfterHead(s)[0] != '-'
    ensures s[0] == '-' ==> forall i :: 0 <= i < |s| - |AfterHead(s)| ==> s[i] == '-'
  {
    StripStartMeaning(s, c => c == '-');
  }

  lemma {:induction false} CollapseKeeps(s: string)
    requires AllAllowed(s)
    ensures AllAllowed(Collapse(s))
    ensures HasAlphanumeric(Collapse(s)) <==> HasAlphanumeric(s)
    decreases |s|
  {
    if s != "" {
      var rest := AfterHead(s);
      CollapseStep(s);
      HeadAndTail(s, |s| - |rest|);
      CollapseKeeps(rest);
      HeadAndTail(Collapse(s), 1);
      assert Collapse(s)[..1] == [s[0]] && Collapse(s)[1..] == Collapse(rest);
      assert HasAlphanumeric(s[..|s| - |rest|]) <==> HasAlphanumeric([s[0]]) by {
        if s[0] != '-' {
          assert s[..1] == [s[0]];
        }
      }
    }
  }

  lemma {:induction false} CollapseSeparates(s: string)
    ensures NoDoubleHyphen(Collapse(s))
    ensures s != "" ==> Collapse(s) != "" && Collapse(s)[0] == s[0]
    decreases |s|
  {
    if s != "" {
      CollapseStep(s);
      CollapseSeparates(AfterHead(s));
    }
  }

  lemma {:induction false} CollapseFixes(s: string)
    requires NoDoubleHyphen(s)
    ensures Collapse(s) == s
    decreases |s|
  {
    if s != "" {
      var rest := AfterHead(s);
      CollapseStep(s);
      assert rest == s[1..] by {
        assert |s| > 1 ==> !(s[0] == '-' && s[1] == '-');
      }
      CollapseFixes(rest);
    }
  }

  lemma {:induction false} LowerFixesAllowed(s: string)
    requires AllAllowed(s)
    ensures Lower(s) == s
  {
    if s != "" {
      LowerFixesAllowed(s[1..]);
    }
  }

  lemma AllowedIsNotSpace(c: char)
    requires Allowed(c)
    ensures !IsSpace(c)
  {
  }

  lemma BareEnds(s: string)
    requires AllAllowed(s)
    ensures Bare(s, Edge) && s != "" ==> Alphanumeric(s[0]) && Alphanumeric(s[|s| - 1])
  {
  }

  /** A cut at 64 characters keeps its alphanumeric start, so the `||` fallback never applies. */
  lemma CutIsNormalized(s: string)
    requires AllAllowed(s) && NoDoubleHyphen(s) && Bare(s, Edge) && |s| > MAX_ID
    ensures StripEnd(s[..MAX_ID], Edge) != "" && Normalized(StripEnd(s[..MAX_ID], Edge))
  {
    var cut := StripEnd(s[..MAX_ID], Edge);
    StripEndMeaning(s[..MAX_ID], Edge);
    assert !Edge(s[..MAX_ID][0]);
    assert forall i :: 0 <= i < |cut| ==> cut[i] == s[i];
    BareEnds(s);
  }

  lemma CleanMeaning(value: string)
    ensures AllAllowed(Clean(value)) && NoDoubleHyphen(Clean(value)) && Bare(Clean(value), Edge)
    ensures Clean(value) != "" <==> HasAlphanumeric(Lower(Trim(value)))
  {
    var t := Lower(Trim(value));
    var flat := Collapse(Squash(t));
    SquashMeaning(t);
    CollapseKeeps(Squash(t));
    CollapseSeparates(Squash(t));
    StripIsBare(flat, Edge);
    StripToNothing(flat, Edge);
    StripIsSlice(flat);
  }

  /** Everything accepted becomes an identity. */
  lemma NormalizeGivesIdentity(value: string)
    ensures Normalize(value).Some? ==> Normalized(Normalize(value).value)
  {
    var cleaned := Clean(value);
    CleanMeaning(value);
    if |cleaned| > MAX_ID {
      CutIsNormalized(cleaned);
    } else {
      BareEnds(cleaned);
    }
  }

  lemma SliceKeeps(s: string, i: nat, j: nat)
    requires i <= j <= |s| && AllAllowed(s) && NoDoubleHyphen(s)
    ensures AllAllowed(s[i..j]) && NoDoubleHyphen(s[i..j])
  {
    assert forall k :: 0 <= k < j - i ==> s[i..j][k] == s[i + k];
  }

  lemma StripIsSlice(s: string)
    requires AllAllowed(s) && NoDoubleHyphen(s)
    ensures AllAllowed(Strip(s, Edge)) && NoDoubleHyphen(Strip(s, Edge))
  {
    var front := StripStart(s, Edge);
    StripStartMeaning(s, Edge);
    StripEndMeaning(front, Edge);
    SliceKeeps(s, |s| - |front|, |s|);
    assert s[|s| - |front|..|s|] == front;
    SliceKeeps(front, 0, |Strip(s, Edge)|);
  }

  lemma CleanFixes(s: string)
    requires AllAllowed(s) && NoDoubleHyphen(s) && Bare(s, Edge) && Bare(s, IsSpace)
    ensures Clean(s) == s
  {
    StripIsBare(s, IsSpace);
    LowerFixesAllowed(s);
    SquashFixes(s);
    CollapseFixes(s);
    StripIsBare(s, Edge);
  }

  /** Identities are exactly the fixed points, so normalising twice is normalising once. */
  lemma IdentitiesAreFixed(s: string)
    requires Normalized(s)
    ensures Normalize(s) == Some(s)
  {
    AllowedIsNotSpace(s[0]);
    AllowedIsNotSpace(s[|s| - 1]);
    CleanFixes(s);
  }

  lemma NormalizeIsIdempotent(value: string)
    requires Normalize(value).Some?
    ensures Normalize(Normalize(value).value) == Normalize(value)
  {
    NormalizeGivesIdentity(value);
    IdentitiesAreFixed(Normalize(value).value);
  }

  // ----- Names on the sandbox host -----

  function TrimName(value: string): string {
    if |value| <= MAX_NAME then value else StripEnd(value[..MAX_NAME], Edge)
  }

  /** `sandboxName` and `volumeName`: they differ only in the prefix they are given. */
  function QualifiedName(prefix: string, id: string): Option<string> {
    match Normalize(id)
    case Some(normalized) => Some(TrimName(prefix + "-" + normalized))
    case None => None
  }

  ghost predicate InjectiveFor(prefix: string) {
    forall a, b | Normalized(a) && Normalized(b) && QualifiedName(prefix, a) == QualifiedName(prefix, b) :: a == b
  }

  lemma ShortPrefixKeepsId(prefix: string, id: string)
    requires |prefix| <= MAX_NAME - MAX_ID - 1 && Normalized(id)
    ensures QualifiedName(prefix, id).Some? && |QualifiedName(prefix, id).value| >= |prefix| + 1
    ensures QualifiedName(prefix, id).value[|prefix| + 1..] == id
  {
    IdentitiesAreFixed(id);
    assert (prefix + "-" + id)[|prefix| + 1..] == id;
  }

  /** Different identities get different names exactly when the prefix has at most 55 characters. */
  lemma QualifiedNamesDiffer(prefix: string)
    ensures InjectiveFor(prefix) <==> |prefix| <= MAX_NAME - MAX_ID - 1
  {
    if |prefix| <= MAX_NAME - MAX_ID - 1 {
      forall a, b | Normalized(a) && Normalized(b) && QualifiedName(prefix, a) == QualifiedName(prefix, b)
        ensures a == b
      {
        ShortPrefixKeepsId(prefix, a);
        ShortPrefixKeepsId(prefix, b);
      }
    } else {
      var a, b := LongPrefixCollides(prefix);
    }
  }

  lemma LongId(last: char) returns (id: string)
    requires Alphanumeric(last)
    ensures Normalized(id) && |id| == MAX_ID && id[MAX_ID - 1] == last
    ensures forall i :: 0 <= i < MAX_ID - 1 ==> id[i] == 'a'
  {
    id := seq(MAX_ID, i => if i < MAX_ID - 1 then 'a' else last);
  }

  lemma SameStart(prefix: string, a: string, b: string, n: nat)
    requires |a| == |b| > 0 && n <= |prefix| + |a| - 1
    requires forall i :: 0 <= i < |a| - 1 ==> a[i] == b[i]
    ensures (prefix + a)[..n] == (prefix + b)[..n]
  {
  }

  lemma LongPrefixCollides(prefix: string) returns (a: string, b: string)
    requires |prefix| >= MAX_NAME - MAX_ID
    ensures Normalized(a) && Normalized(b) && a != b && QualifiedName(prefix, a) == QualifiedName(prefix, b)
  {
    a := LongId('a');
    b := LongId('b');
    IdentitiesAreFixed(a);
    IdentitiesAreFixed(b);
    SameStart(prefix + "-", a, b, MAX_NAME);
  }
}
