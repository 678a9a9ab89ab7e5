/**
 * The typewriter animation of the `Hero` component (src/index.tsx:147-180).
 *
 * The component keeps three pieces of state: the index of the title being
 * shown, the prefix of it currently displayed, and whether it is typing
 * (growing) or deleting (shrinking). Each timer tick runs `handleTyping`
 * once on the current state. Timers are dropped: a tick is one step.
 */
module Typing {

  /** The fixed title list of the hero banner. */
  const HeroTitles: seq<string> :=
    ["AI Enthusiast", "React Developer", "Software Engineer", "Voice Assistant Creator"]

  datatype TypingState = TypingState(index: nat, displayed: string, typing: bool)

  /** Typing, nothing displayed yet, at title `i`: the mount state (for i = 0) and the start of every cycle. */
  function Start(i: nat): (s: TypingState)
    ensures s.index == i && s.displayed == [] && s.typing
  {
    TypingState(i, "", true)
  }

  /** The state invariant: the index is in range and the displayed text is a prefix of its title. */
  ghost predicate Inv(titles: seq<string>, s: TypingState)
  {
    s.index < |titles| && s.displayed <= titles[s.index]
  }

  /**
   * One tick of `handleTyping`: grow by the next character of the target,
   * switch to deleting once the target is fully shown (the pause), drop the
   * last character, or, once empty, go back to typing the next title.
   */
  function NextState(titles: seq<string>, s: TypingState): (r: TypingState)
    requires Inv(titles, s)
    ensures Inv(titles, r)
    // typing and short of the target: one more character of the target, nothing else changes
    ensures s.typing && |s.displayed| < |titles[s.index]| ==>
      r.index == s.index && r.typing &&
      |r.displayed| == |s.displayed| + 1 && s.displayed <= r.displayed
    // typing and complete: only the flag changes
    ensures s.typing && |s.displayed| == |titles[s.index]| ==>
      r.index == s.index && !r.typing && r.displayed == s.displayed
    // deleting and non-empty: the last character goes, nothing else changes
    ensures !s.typing && |s.displayed| > 0 ==>
      r.index == s.index && !r.typing &&
      |r.displayed| + 1 == |s.displayed| && r.displayed <= s.displayed
    // deleting and empty: typing again, at the next title (wrapping)
    ensures !s.typing && s.displayed == [] ==>
      r == Start((s.index + 1) % |titles|)
    // the index only moves when nothing is displayed
    ensures r.index != s.index ==> s.displayed == [] && r.displayed == []
  {
    var target := titles[s.index];
    if s.typing then
      if |s.displayed| < |target| then
        s.(displayed := target[..|s.displayed| + 1])
      else
        s.(typing := false)
    else if |s.displayed| > 0 then
      s.(displayed := s.displayed[..|s.displayed| - 1])
    else
      Start((s.index + 1) % |titles|)
  }

  /** The state after `k` ticks. */
  function Run(titles: seq<string>, s: TypingState, k: nat): (r: TypingState)
    requires Inv(titles, s)
    ensures Inv(titles, r)
    decreases k
  {
    if k == 0 then s else NextState(titles, Run(titles, s, k - 1))
  }

  /** Running `a` ticks and then `b` more is running `a + b` ticks. */
  lemma {:induction false} RunAdd(titles: seq<string>, s: TypingState, a: nat, b: nat)
    requires Inv(titles, s)
    ensures Run(titles, Run(titles, s, a), b) == Run(titles, s, a + b)
    decreases b
  {
    if b > 0 {
      RunAdd(titles, s, a, b - 1);
    }
  }

  /** The first |T| + 1 ticks of a cycle show the prefixes of T in increasing length, typing. */
  lemma {:induction false} GrowPhase(titles: seq<string>, i: nat, k: nat)
    requires i < |titles| && k <= |titles[i]|
    ensures Run(titles, Start(i), k) == TypingState(i, titles[i][..k], true)
  {
    if k > 0 {
      GrowPhase(titles, i, k - 1);
    }
  }

  /** After the pause tick the full title is shown and the animator is deleting. */
  lemma PauseStep(titles: seq<string>, i: nat)
    requires i < |titles|
    ensures Run(titles, Start(i), |titles[i]| + 1) == TypingState(i, titles[i], false)
  {
    GrowPhase(titles, i, |titles[i]|);
    assert titles[i][..|titles[i]|] == titles[i];
  }

  /** The deleting ticks show the prefixes of T in decreasing length, down to the empty string. */
  lemma {:induction false} ShrinkPhase(titles: seq<string>, i: nat, j: nat)
    requires i < |titles| && j <= |titles[i]|
    ensures Run(titles, Start(i), |titles[i]| + 1 + j) == TypingState(i, titles[i][..|titles[i]| - j], false)
  {
    var t := titles[i];
    if j == 0 {
      PauseStep(titles, i);
      assert t[..|t|] == t;
    } else {
      ShrinkPhase(titles, i, j - 1);
      var d := t[..|t| - (j - 1)];
      assert d[..|d| - 1] == t[..|t| - j];
    }
  }

  /** The number of ticks one title takes: grow, pause, shrink, advance. */
  function CycleLength(titles: seq<string>, i: nat): nat
    requires i < |titles|
  {
    2 * |titles[i]| + 2
  }

  /** One full grow/pause/shrink/advance cycle ends empty and typing, at the next title. */
  lemma FullCycle(titles: seq<string>, i: nat)
    requires i < |titles|
    ensures Run(titles, Start(i), CycleLength(titles, i)) == Start((i + 1) % |titles|)
  {
    ShrinkPhase(titles, i, |titles[i]|);
  }

  /** The ticks taken by `m` consecutive cycles starting at title `i`. */
  function CyclesLength(titles: seq<string>, i: nat, m: nat): nat
    requires i < |titles|
    decreases m
  {
    if m == 0 then 0 else CycleLength(titles, i) + CyclesLength(titles, (i + 1) % |titles|, m - 1)
  }

  /** A non-zero multiple of `n` is at least `n` away from 0. */
  lemma MultipleBound(n: nat, d: int)
    ensures d > 0 ==> n * d >= n
    ensures d < 0 ==> n * d <= -(n as int)
  {
    if d > 0 {
      assert n * d == n * (d - 1) + n;
      assert n * (d - 1) >= 0;
    } else if d < 0 {
      assert n * d == -(n * (-d - 1)) - n;
      assert n * (-d - 1) >= 0;
    }
  }

  /** Any quotient/remainder split of `x` by `n` gives its remainder. */
  lemma ModUnique(x: nat, q: int, n: nat, r: int)
    requires 0 <= r < n && x == n * q + r
    ensures x % n == r
  {
    var q2, r2 := x / n, x % n;
    assert x == n * q2 + r2;
    assert n * (q - q2) == r2 - r by {
      assert n * q - n * q2 == n * (q - q2);
    }
    MultipleBound(n, q - q2);
  }

  /** Wrapping after one step and then moving `m` more is wrapping after `1 + m`. */
  lemma ModSucc(i: nat, m: nat, n: nat)
    requires i < n
    ensures ((i + 1) % n + m) % n == (i + 1 + m) % n
  {
    var q, r := m / n, m % n;
    assert m == n * q + r;
    if i + 1 == n {
      assert i + 1 + m == n * (q + 1) + r by {
        assert n * (q + 1) == n * q + n;
      }
      ModUnique(i + 1 + m, q + 1, n, r);
      ModUnique(n, 1, n, 0);
    } else {
      ModUnique(i + 1, 0, n, i + 1);
    }
  }

  /** The titles are shown in list order and wrap around: `m` cycles from title `i` end at title `(i + m) % n`. */
  lemma {:induction false} Cycles(titles: seq<string>, i: nat, m: nat)
    requires i < |titles|
    ensures Run(titles, Start(i), CyclesLength(titles, i, m)) == Start((i + m) % |titles|)
    decreases m
  {
    var n := |titles|;
    if m == 0 {
      ModUnique(i, 0, n, i);
    } else {
      var next := (i + 1) % n;
      var first, rest := CycleLength(titles, i), CyclesLength(titles, next, m - 1);
      assert CyclesLength(titles, i, m) == first + rest;
      FullCycle(titles, i);
      Cycles(titles, next, m - 1);
      RunAdd(titles, Start(i), first, rest);
      ModSucc(i, m - 1, n);
    }
  }

  /** The hero banner shows its four titles in 28, 32, 36 and 48 ticks, 144 in all, and is then back at its mount state. */
  lemma HeroCyclesLength()
    ensures CyclesLength(HeroTitles, 0, 4) == 144
    ensures Run(HeroTitles, Start(0), CyclesLength(HeroTitles, 0, 4)) == Start(0)
  {
    Rotation(HeroTitles, 0);
    assert CyclesLength(HeroTitles, 3, 1) == 48;
    assert CyclesLength(HeroTitles, 2, 2) == 36 + 48;
    assert CyclesLength(HeroTitles, 1, 3) == 32 + 36 + 48;
  }

  /** Showing every title once, in order, returns to the starting state. */
  lemma Rotation(titles: seq<string>, i: nat)
    requires i < |titles|
    ensures Run(titles, Start(i), CyclesLength(titles, i, |titles|)) == Start(i)
  {
    var n := |titles|;
    Cycles(titles, i, n);
    ModUnique(i + n, 1, n, i);
  }

  /**
   * The `Hero` component's typing state, updated in place by its
   * `setCurrentTitleIndex`, `setDisplayedTitle` and `setIsTyping` calls.
   */
  class Typewriter {
    const titles: seq<string>
    var currentTitleIndex: nat
    var displayedTitle: string
    var isTyping: bool

    ghost predicate Valid()
      reads this
    {
      Inv(titles, State())
    }

    function State(): TypingState
      reads this
    {
      TypingState(currentTitleIndex, displayedTitle, isTyping)
    }

    /** Mounting: first title, nothing displayed, typing. */
    constructor (titles: seq<string>)
      requires |titles| > 0
      ensures this.titles == titles
      ensures Valid() && State() == Start(0)
    {
      this.titles := titles;
      currentTitleIndex := 0;
      displayedTitle := "";
      isTyping := true;
    }

    /** One firing of the typing timer. */
    method HandleTyping()
      requires Valid()
      modifies this
      ensures Valid()
      ensures State() == NextState(titles, old(State()))
    {
      var currentTargetTitle := titles[currentTitleIndex];
      if isTyping {
        if |displayedTitle| < |currentTargetTitle| {
          displayedTitle := currentTargetTitle[..|displayedTitle| + 1];
        } else {
          // the pause timer's callback
          isTyping := false;
        }
      } else {
        if |displayedTitle| > 0 {
          displayedTitle := displayedTitle[..|displayedTitle| - 1];
        } else {
          isTyping := true;
          currentTitleIndex := (currentTitleIndex + 1) % |titles|;
        }
      }
    }
  }
}
