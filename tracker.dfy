/**
 * The active-section tracker of the `App` component (src/index.tsx:33-89).
 *
 * The browser's intersection observer is replaced by the batch of entries
 * it delivers: each entry names the observed section and whether it is
 * intersecting the tracked band. The callback walks the batch in order and
 * makes every intersecting entry's section the active one.
 */
module Tracker {
  import opened Wrappers
  import opened Sections

  /** One observer entry: the observed section and its `isIntersecting` flag. */
  datatype Entry = Entry(target: SectionId, isIntersecting: bool)

  /** The body of the callback's `forEach` for one entry. */
  function Observe(active: SectionId, entry: Entry): (r: SectionId)
    ensures entry.isIntersecting ==> r == entry.target
    ensures !entry.isIntersecting ==> r == active
  {
    if entry.isIntersecting then entry.target else active
  }

  /**
   * The active section after the callback has walked `entries` in order,
   * starting from `active`: a left fold of `Observe`.
   */
  function ActiveAfter(entries: seq<Entry>, active: SectionId): (r: SectionId)
    // the result is the prior section or the section of some intersecting entry
    ensures r == active || exists i :: 0 <= i < |entries| && entries[i].isIntersecting && entries[i].target == r
    decreases |entries|
  {
    if entries == [] then active
    else ActiveAfter(entries[1..], Observe(active, entries[0]))
  }

  /** Entry `i` intersects and no later entry of the batch does. */
  ghost predicate IsLastIntersecting(entries: seq<Entry>, i: int)
  {
    0 <= i < |entries| && entries[i].isIntersecting &&
    forall j :: i < j < |entries| ==> !entries[j].isIntersecting
  }

  /**
   * The last intersecting entry of a batch decides the active section;
   * a batch with no intersecting entry leaves it unchanged.
   */
  lemma {:induction false} ActiveAfterIsLastIntersecting(entries: seq<Entry>, active: SectionId)
    ensures (forall i :: 0 <= i < |entries| ==> !entries[i].isIntersecting) ==> ActiveAfter(entries, active) == active
    ensures forall i :: IsLastIntersecting(entries, i) ==> ActiveAfter(entries, active) == entries[i].target
    decreases |entries|
  {
    if entries != [] {
      var rest := entries[1..];
      var next := Observe(active, entries[0]);
      ActiveAfterIsLastIntersecting(rest, next);
      forall i | IsLastIntersecting(entries, i)
        ensures ActiveAfter(entries, active) == entries[i].target
      {
        if i == 0 {
          assert forall k :: 0 <= k < |rest| ==> !rest[k].isIntersecting by {
            forall k | 0 <= k < |rest| ensures !rest[k].isIntersecting {
              assert rest[k] == entries[k + 1];
            }
          }
        } else {
          assert IsLastIntersecting(rest, i - 1);
        }
      }
      if forall i :: 0 <= i < |entries| ==> !entries[i].isIntersecting {
        assert !entries[0].isIntersecting;
        assert forall k :: 0 <= k < |rest| ==> !rest[k].isIntersecting by {
          forall k | 0 <= k < |rest| ensures !rest[k].isIntersecting {
            assert rest[k] == entries[k + 1];
          }
        }
      }
    }
  }

  /** The height of the fixed header: its measured `clientHeight`, or 70 when there is no header element. */
  function HeaderHeight(measured: Option<nat>): (h: nat)
    ensures measured.None? ==> h == 70
    ensures measured.Some? ==> h == measured.value
  {
    match measured
    case None => 70
    case Some(height) => height
  }

  /** The decimal digit character of `d`. */
  function DigitChar(d: nat): (c: char)
    requires d < 10
    ensures '0' <= c <= '9' && (c - '0') as nat == d
  {
    "0123456789"[d]
  }

  ghost predicate IsDigits(s: string)
  {
    |s| > 0 && forall k :: 0 <= k < |s| ==> '0' <= s[k] <= '9'
  }

  /** The decimal rendering of `n`, as a template string interpolates a number. */
  function Decimal(n: nat): (s: string)
    ensures IsDigits(s)
    ensures n > 0 ==> s[0] != '0'
    decreases n
  {
    if n < 10 then [DigitChar(n)] else Decimal(n / 10) + [DigitChar(n % 10)]
  }

  /** The value of a string of decimal digits. */
  function DigitsValue(s: string): nat
    requires IsDigits(s)
    decreases |s|
  {
    var last := (s[|s| - 1] - '0') as nat;
    if |s| == 1 then last else DigitsValue(s[..|s| - 1]) * 10 + last
  }

  /** Reading a decimal rendering back gives the number rendered. */
  lemma {:induction false} DecimalRoundTrip(n: nat)
    ensures DigitsValue(Decimal(n)) == n
    decreases n
  {
    if n >= 10 {
      DecimalRoundTrip(n / 10);
      var s := Decimal(n);
      assert s[..|s| - 1] == Decimal(n / 10);
    }
  }

  const MarginTail: string := "px 0px 0px 0px"

  /**
   * The observer's `rootMargin`: the tracked band starts `headerHeight + 5`
   * pixels below the top of the viewport, so a section still under the
   * fixed header does not count as visible.
   */
  function RootMargin(measured: Option<nat>): (r: string)
    ensures |r| > 1 + |MarginTail| && r[0] == '-' && r[|r| - |MarginTail|..] == MarginTail
    ensures IsDigits(r[1..|r| - |MarginTail|])
    ensures DigitsValue(r[1..|r| - |MarginTail|]) == HeaderHeight(measured) + 5
  {
    var digits := Decimal(HeaderHeight(measured) + 5);
    DecimalRoundTrip(HeaderHeight(measured) + 5);
    var r := "-" + digits + MarginTail;
    assert r[1..|r| - |MarginTail|] == digits;
    r
  }

  /** The `App` component's `activeSection` state. */
  class App {
    var activeSection: SectionId

    /** Mounting: the hero section is active. */
    constructor ()
      ensures activeSection == Hero
    {
      activeSection := Hero;
    }

    /** The observer callback: one `setActiveSection` per intersecting entry, in batch order. */
    method ObserverCallback(entries: seq<Entry>)
      modifies this
      ensures activeSection == ActiveAfter(entries, old(activeSection))
    {
      var i := 0;
      while i < |entries|
        invariant 0 <= i <= |entries|
        invariant ActiveAfter(entries[i..], activeSection) == ActiveAfter(entries, old(activeSection))
      {
        var entry := entries[i];
        assert entries[i..][1..] == entries[i + 1..];
        if entry.isIntersecting {
          activeSection := entry.target;
        }
        i := i + 1;
      }
    }
  }
}
