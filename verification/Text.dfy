/** Text as a sequence of characters under an abstract notion of whitespace. */
module Text {
  type Space = char -> bool

  function SkipFront(space: Space, s: string, i: nat): (r: nat)
    requires i <= |s|
    ensures i <= r <= |s|
    ensures forall k :: i <= k < r ==> space(s[k])
    ensures r < |s| ==> !space(s[r])
    decreases |s| - i
  {
    if i == |s| || !space(s[i]) then i else SkipFront(space, s, i + 1)
  }

  function SkipBack(space: Space, s: string, lo: nat, i: nat): (r: nat)
    requires lo <= i <= |s|
    ensures lo <= r <= i
    ensures forall k :: r <= k < i ==> space(s[k])
    ensures lo < r ==> !space(s[r - 1])
    decreases i
  {
    if i == lo || !space(s[i - 1]) then i else SkipBack(space, s, lo, i - 1)
  }

  /** Where the stripped text starts. */
  function Start(space: Space, s: string): nat {
    SkipFront(space, s, 0)
  }

  /** Where the stripped text ends. */
  function Stop(space: Space, s: string): nat {
    SkipBack(space, s, Start(space, s), |s|)
  }

  /** Python's `strip()`. */
  function Strip(space: Space, s: string): string {
    s[Start(space, s)..Stop(space, s)]
  }

  ghost predicate Blank(space: Space, s: string) {
    forall i :: 0 <= i < |s| ==> space(s[i])
  }

  /** Neither end is whitespace. */
  ghost predicate Trim(space: Space, s: string) {
    s != "" ==> !space(s[0]) && !space(s[|s| - 1])
  }

  /** `Strip` keeps one stretch of the text, drops only whitespace around it, and leaves no outer whitespace. */
  lemma StripFacts(space: Space, s: string)
    ensures var a, b := Start(space, s), Stop(space, s);
      && a <= b <= |s|
      && Strip(space, s) == s[a..b]
      && (forall i :: 0 <= i < |s| && !(a <= i < b) ==> space(s[i]))
      && (Strip(space, s) == "" <==> Blank(space, s))
      && Trim(space, Strip(space, s))
  {
    var a, b := Start(space, s), Stop(space, s);
    if a < b {
      assert Strip(space, s)[0] == s[a] && Strip(space, s)[b - a - 1] == s[b - 1];
      assert !space(s[a]);
    }
  }

  /** Stripping a text that starts with a character only shortens its tail. */
  lemma StripStarted(space: Space, s: string)
    requires s != "" && !space(s[0])
    ensures Strip(space, s) != "" && Strip(space, s) <= s
  {
    StripFacts(space, s);
  }

  /** Stripping is idempotent: a trimmed text is left alone. */
  lemma StripTrimmed(space: Space, s: string)
    requires Trim(space, s)
    ensures Strip(space, s) == s
  {
    StripFacts(space, s);
  }
}
