/** The debounce rule of the controller's main loop: one global
    `last_direction`, shared by all channels, lets through only an event
    whose direction differs from the last one acted upon.
    (touch_player.py, `main`, lines 140-153) */
module Debounce {
  import opened Protocol

  /** The loop acts on `e` when `e` has a direction and it is not the last acted-upon one. */
  predicate Acts(last: int, e: Event)
    ensures Acts(last, e) <==> (e.Engage? && last != 1) || (e.Release? && last != -1)
  {
    e.Direction() != last && e.Direction() != 0
  }

  /** `last_direction` after the loop has seen `e`. */
  function Next(last: int, e: Event): (next: int)
    ensures next == if e.NoEvent? then last else e.Direction()
  {
    if Acts(last, e) then e.Direction() else last
  }

  /** `last_direction` after a whole stream of events, starting from `last`. */
  function Final(last: int, es: seq<Event>): int
  {
    if es == [] then last else Next(Final(last, es[..|es| - 1]), es[|es| - 1])
  }

  /** The events the loop acts on, in order. */
  function Acted(last: int, es: seq<Event>): seq<Event>
  {
    if es == [] then []
    else
      var prev := es[..|es| - 1];
      Acted(last, prev) + (if Acts(Final(last, prev), es[|es| - 1]) then [es[|es| - 1]] else [])
  }

  /** The direction of the last event of `es` that carries one, or `last` if none does. */
  function LastReal(last: int, es: seq<Event>): int
  {
    if es == [] then last
    else if es[|es| - 1].NoEvent? then LastReal(last, es[..|es| - 1])
    else es[|es| - 1].Direction()
  }

  /** The debouncer: the controller's single `last_direction` variable. */
  class Debouncer {
    var lastDirection: int

    constructor ()
      ensures lastDirection == 0
    {
      lastDirection := 0;
    }

    /** One pass of the loop's test: report whether `e` is acted on, and remember its direction if so. */
    method Step(e: Event) returns (act: bool)
      modifies this
      ensures act == Acts(old(lastDirection), e)
      ensures lastDirection == Next(old(lastDirection), e)
    {
      var direction := e.Direction();
      act := direction != lastDirection && direction != 0;
      if act {
        lastDirection := direction;
      }
    }
  }

  /** What the filter guarantees about the acted-upon stream: no acted event is
      a non-event, the first differs in direction from the starting state, any
      two consecutive ones have opposite directions, and the state left behind
      is the direction of the last acted event. */
  lemma {:induction false} ActedAlternates(last: int, es: seq<Event>)
    ensures var a := Acted(last, es);
      && (forall k :: 0 <= k < |a| ==> a[k].Direction() != 0)
      && (|a| > 0 ==> a[0].Direction() != last)
      && (forall k :: 0 < k < |a| ==> a[k].Direction() != a[k - 1].Direction())
      && Final(last, es) == (if a == [] then last else a[|a| - 1].Direction())
  {
    if es != [] {
      var prev, e := es[..|es| - 1], es[|es| - 1];
      ActedAlternates(last, prev);
      var a0, f := Acted(last, prev), Final(last, prev);
      var a := Acted(last, es);
      if Acts(f, e) {
        assert a == a0 + [e];
        assert Final(last, es) == e.Direction();
        assert a0 != [] ==> a[|a| - 2] == a0[|a0| - 1];
      } else {
        assert a == a0;
        assert Final(last, es) == f;
      }
    }
  }

  /** The state after a stream is the direction of its last real event,
      whether or not that event was acted upon. */
  lemma {:induction false} FinalIsLastReal(last: int, es: seq<Event>)
    ensures Final(last, es) == LastReal(last, es)
  {
    if es != [] {
      FinalIsLastReal(last, es[..|es| - 1]);
    }
  }

  /** The debounce rule on the input stream: event `k` is acted upon exactly
      when it carries a direction and that direction differs from the one of
      the last earlier real event (or from the starting state). So a touch
      after a touch is ignored, and a touch after a release is acted upon. */
  lemma ActsIffDiffersFromLastReal(last: int, es: seq<Event>, k: int)
    requires 0 <= k < |es|
    ensures Acts(Final(last, es[..k]), es[k]) <==>
      es[k].Direction() != 0 && es[k].Direction() != LastReal(last, es[..k])
  {
    FinalIsLastReal(last, es[..k]);
  }

  /** Every acted-upon event is one of the input events. */
  lemma {:induction false} ActedFromInput(last: int, es: seq<Event>)
    ensures forall e :: e in Acted(last, es) ==> e in es
  {
    if es != [] {
      var prev := es[..|es| - 1];
      ActedFromInput(last, prev);
      assert forall e :: e in prev ==> e in es;
    }
  }

  /** The debounce state is global: in a stream of touches, whatever their
      channels, at most one is acted upon; likewise for releases. */
  lemma SameDirectionActsOnce(last: int, es: seq<Event>, d: int)
    requires forall k :: 0 <= k < |es| ==> es[k].Direction() == d
    ensures |Acted(last, es)| <= 1
  {
    var a := Acted(last, es);
    ActedFromInput(last, es);
    ActedAlternates(last, es);
    forall k | 0 <= k < |a|
      ensures a[k].Direction() == d
    {
      assert a[k] in es;
    }
  }

  /** The direction state only ever holds -1, 0 or 1. */
  lemma {:induction false} FinalInRange(last: int, es: seq<Event>)
    requires -1 <= last <= 1
    ensures -1 <= Final(last, es) <= 1
  {
    if es != [] {
      FinalInRange(last, es[..|es| - 1]);
    }
  }

  /** Touches on channels 0 and 1, then a release: the second touch is suppressed. */
  lemma DebounceSuppressesSecondTouch()
    ensures Acted(0, [Engage(0), Engage(1), Release(0)]) == [Engage(0), Release(0)]
  {
    var s := [Engage(0), Engage(1), Release(0)];
    assert s[..2][..1][..0] == [];
    assert Acted(0, s[..2][..1]) == [Engage(0)] && Final(0, s[..2][..1]) == 1;
    assert Acted(0, s[..2]) == [Engage(0)] && Final(0, s[..2]) == 1;
  }

  /** Alternating directions are all acted upon, whatever the channels. */
  lemma DebounceAlternatingAllAct()
    ensures Acted(0, [Engage(0), Release(2), Engage(0)]) == [Engage(0), Release(2), Engage(0)]
  {
    var s := [Engage(0), Release(2), Engage(0)];
    assert s[..2][..1][..0] == [];
    assert Acted(0, s[..2][..1]) == [Engage(0)] && Final(0, s[..2][..1]) == 1;
    assert Acted(0, s[..2]) == [Engage(0), Release(2)] && Final(0, s[..2]) == -1;
  }
}
