/**
 * The rules of a Schulte-table session, as values: what one press does to the
 * counters and to the pressed tile, what a frame's presses do together, when the
 * session is over, and how the blink feedback on each tile runs down.
 *
 * The tiles of the grid are numbered by their spawn order 0, 1, ...; tile i
 * carries the label labels[i], the background colour colour[i] and, while it
 * is blinking, the timer blink[i].
 */
module Rules {
  import opened Wrappers
  import opened OneShot
  import Numbers

  /** TIMER_DURATION, 0.2 seconds, in nanoseconds. */
  const TIMER_DURATION: nat := 200_000_000

  /** The three background colours a tile can show. */
  datatype Colour = Default | Correct | Incorrect

  /** Bevy's `Interaction`; `Idle` stands for `Interaction::None`. */
  datatype Interaction = Pressed | Hovered | Idle

  /** A changed interaction on tile `tile`, as the interaction query reports it. */
  datatype Event = Event(tile: nat, interaction: Interaction)

  /** The `NextExpected` and `Score` resources and the components of every tile. */
  datatype State = State(next: nat, score: nat, labels: seq<nat>, colour: seq<Colour>, blink: seq<Option<Timer>>)

  predicate WellFormed(s: State)
  {
    |s.colour| == |s.labels| && |s.blink| == |s.labels|
  }

  /** The session invariant of an n-tile grid whose labels lie in 1..=n. */
  predicate Invariant(s: State, n: nat)
  {
    && WellFormed(s)
    && (forall k :: 0 <= k < |s.labels| ==> 1 <= s.labels[k] <= n)
    && s.score + 1 == s.next <= n + 1
  }

  /** The game is over once every label up to n has been pressed in order. */
  predicate Complete(s: State, n: nat)
  {
    s.next > n
  }

  /** Every event of the frame refers to an existing tile. */
  predicate OnBoard(es: seq<Event>, tiles: nat)
  {
    forall k :: 0 <= k < |es| ==> es[k].tile < tiles
  }

  predicate HasPress(es: seq<Event>)
  {
    exists k :: 0 <= k < |es| && es[k].interaction == Pressed
  }

  function PressCount(es: seq<Event>): (c: nat)
    ensures c <= |es|
  {
    if es == [] then 0
    else PressCount(es[..|es| - 1]) + (if es[|es| - 1].interaction == Pressed then 1 else 0)
  }

  /**
   * A press on tile i. The tile whose label is the next expected one advances
   * both counters and turns CORRECT; any other tile leaves the counters alone
   * and turns INCORRECT. Either way the tile gets a fresh blink timer, replacing
   * the one it may already have, and no other tile changes.
   */
  function Press(s: State, i: nat): (r: State)
    requires WellFormed(s) && i < |s.labels|
    ensures WellFormed(r) && r.labels == s.labels
    ensures s.labels[i] == s.next ==> r.next == s.next + 1 && r.score == s.score + 1 && r.colour[i] == Correct
    ensures s.labels[i] != s.next ==> r.next == s.next && r.score == s.score && r.colour[i] == Incorrect
    ensures r.blink[i] == Some(Start(TIMER_DURATION))
    ensures forall j :: 0 <= j < |s.labels| && j != i ==> r.colour[j] == s.colour[j] && r.blink[j] == s.blink[j]
  {
    var blink := s.blink[i := Some(Start(TIMER_DURATION))];
    if s.labels[i] == s.next then
      s.(next := s.next + 1, score := s.score + 1, colour := s.colour[i := Correct], blink := blink)
    else
      s.(colour := s.colour[i := Incorrect], blink := blink)
  }

  /** One entry of the interaction query: only `Pressed` does anything. */
  function Apply(s: State, e: Event): (r: State)
    requires WellFormed(s) && e.tile < |s.labels|
    ensures WellFormed(r) && r.labels == s.labels
    ensures e.interaction == Pressed ==> r == Press(s, e.tile)
    ensures e.interaction != Pressed ==> r == s
  {
    if e.interaction == Pressed then Press(s, e.tile) else s
  }

  /**
   * The entries of a frame's interaction query, in order. The counters move
   * together, never backwards, and by at most one per press.
   */
  function ApplyAll(s: State, es: seq<Event>): (r: State)
    requires WellFormed(s) && OnBoard(es, |s.labels|)
    ensures WellFormed(r) && r.labels == s.labels
    ensures s.next <= r.next <= s.next + PressCount(es)
    ensures r.score - s.score == r.next - s.next
    decreases |es|
  {
    if es == [] then s else Apply(ApplyAll(s, es[..|es| - 1]), es[|es| - 1])
  }

  /** Taking the events of two frames one after the other is taking them all at once. */
  lemma {:induction false} ApplyAllConcat(s: State, a: seq<Event>, b: seq<Event>)
    requires WellFormed(s) && OnBoard(a + b, |s.labels|)
    ensures OnBoard(a, |s.labels|) && OnBoard(b, |s.labels|)
    ensures ApplyAll(s, a + b) == ApplyAll(ApplyAll(s, a), b)
    decreases |b|
  {
    assert forall k :: 0 <= k < |a| ==> a[k] == (a + b)[k];
    assert forall k :: 0 <= k < |b| ==> b[k] == (a + b)[|a| + k];
    if b == [] {
      assert a + b == a;
    } else {
      var b' := b[..|b| - 1];
      assert (a + b)[..|a + b| - 1] == a + b';
      ApplyAllConcat(s, a, b');
    }
  }

  /** Presses keep the session invariant: score + 1 == next <= n + 1. */
  lemma {:induction false} ApplyAllKeepsInvariant(s: State, es: seq<Event>, n: nat)
    requires Invariant(s, n) && OnBoard(es, |s.labels|)
    ensures Invariant(ApplyAll(s, es), n)
    decreases |es|
  {
    if es != [] {
      var es' := es[..|es| - 1];
      ApplyAllKeepsInvariant(s, es', n);
      var p := ApplyAll(s, es');
      var e := es[|es| - 1];
      if e.interaction == Pressed && p.labels[e.tile] == p.next {
        assert p.next <= n;
      }
    }
  }

  /** `next_expected` never decreases over a frame's events. */
  lemma NextMonotone(s: State, es: seq<Event>, i: nat, j: nat)
    requires WellFormed(s) && OnBoard(es, |s.labels|) && i <= j <= |es|
    ensures ApplyAll(s, es[..i]).next <= ApplyAll(s, es[..j]).next
  {
    assert es[..j] == es[..i] + es[i..j];
    ApplyAllConcat(s, es[..i], es[i..j]);
  }

  /**
   * The per-press completion check of the first version: the k-th entry of the
   * frame requests GameOver when it is a press after which next exceeds n.
   */
  predicate RequestAt(s: State, es: seq<Event>, n: nat, k: nat)
    requires WellFormed(s) && OnBoard(es, |s.labels|) && k < |es|
  {
    es[k].interaction == Pressed && Complete(ApplyAll(s, es[..k + 1]), n)
  }

  predicate FrameRequests(s: State, es: seq<Event>, n: nat)
    requires WellFormed(s) && OnBoard(es, |s.labels|)
  {
    exists k :: 0 <= k < |es| && RequestAt(s, es, n, k)
  }

  /** The k-th entry is the one that takes next past n. */
  predicate CompletingPress(s: State, es: seq<Event>, n: nat, k: nat)
    requires WellFormed(s) && OnBoard(es, |s.labels|)
  {
    k < |es| && ApplyAll(s, es[..k]).next <= n < ApplyAll(s, es[..k + 1]).next
  }

  /**
   * GameOver is first requested by the press that completes the session: that
   * press is on the tile labelled n, no entry before it requests, and every
   * press from it on does.
   */
  lemma RequestsStartAtCompletingPress(s: State, es: seq<Event>, n: nat, k: nat)
    requires WellFormed(s) && OnBoard(es, |s.labels|) && CompletingPress(s, es, n, k)
    ensures es[k].interaction == Pressed && s.labels[es[k].tile] == n
    ensures RequestAt(s, es, n, k)
    ensures forall j :: 0 <= j < k ==> !RequestAt(s, es, n, j)
    ensures forall j :: k <= j < |es| && es[j].interaction == Pressed ==> RequestAt(s, es, n, j)
  {
    assert es[..k + 1][..k] == es[..k];
    forall j | 0 <= j < k
      ensures !RequestAt(s, es, n, j)
    {
      NextMonotone(s, es, j + 1, k);
    }
    forall j | k <= j < |es| && es[j].interaction == Pressed
      ensures RequestAt(s, es, n, j)
    {
      NextMonotone(s, es, k + 1, j + 1);
    }
  }

  /** A frame that takes next from at most n to past n has a completing press. */
  lemma {:induction false} ExistsCompletingPress(s: State, es: seq<Event>, n: nat)
    requires WellFormed(s) && OnBoard(es, |s.labels|)
    requires s.next <= n < ApplyAll(s, es).next
    ensures exists k: nat :: CompletingPress(s, es, n, k)
    decreases |es|
  {
    var m := |es| - 1;
    var es' := es[..m];
    assert es[..m + 1] == es;
    if ApplyAll(s, es').next > n {
      ExistsCompletingPress(s, es', n);
      var k: nat :| CompletingPress(s, es', n, k);
      assert es'[..k] == es[..k] && es'[..k + 1] == es[..k + 1];
      assert CompletingPress(s, es, n, k);
    } else {
      assert CompletingPress(s, es, n, m);
    }
  }

  /**
   * The two completion checks agree on frames with a press: checking after every
   * press requests GameOver exactly when next exceeds n after the whole frame.
   * On a frame without a press only the once-per-frame check can request it.
   */
  lemma CompletionChecksAgree(s: State, es: seq<Event>, n: nat)
    requires WellFormed(s) && OnBoard(es, |s.labels|)
    ensures FrameRequests(s, es, n) <==> HasPress(es) && Complete(ApplyAll(s, es), n)
  {
    if FrameRequests(s, es, n) {
      RequestMeansComplete(s, es, n);
    }
    if HasPress(es) && Complete(ApplyAll(s, es), n) {
      CompleteMeansRequest(s, es, n);
    }
  }

  /** A request comes from a press, and next only grows after it. */
  lemma RequestMeansComplete(s: State, es: seq<Event>, n: nat)
    requires WellFormed(s) && OnBoard(es, |s.labels|) && FrameRequests(s, es, n)
    ensures HasPress(es) && Complete(ApplyAll(s, es), n)
  {
    assert es[..|es|] == es;
    var k :| 0 <= k < |es| && RequestAt(s, es, n, k);
    NextMonotone(s, es, k + 1, |es|);
  }

  /** A frame with a press that ends past n has a press that requests. */
  lemma CompleteMeansRequest(s: State, es: seq<Event>, n: nat)
    requires WellFormed(s) && OnBoard(es, |s.labels|)
    requires HasPress(es) && Complete(ApplyAll(s, es), n)
    ensures FrameRequests(s, es, n)
  {
    var p :| 0 <= p < |es| && es[p].interaction == Pressed;
    if s.next > n {
      assert es[..0] == [];
      NextMonotone(s, es, 0, p + 1);
      assert RequestAt(s, es, n, p);
    } else {
      assert es[..|es|] == es;
      ExistsCompletingPress(s, es, n);
      var k: nat :| CompletingPress(s, es, n, k);
      RequestsStartAtCompletingPress(s, es, n, k);
    }
  }

  /** The index of some tile labelled v. */
  function IndexOf(labels: seq<nat>, v: nat): (i: nat)
    requires v in labels
    ensures i < |labels| && labels[i] == v
  {
    if labels[0] == v then 0 else 1 + IndexOf(labels[1..], v)
  }

  /** Pressing the tiles labelled 1, 2, ..., k in that order. */
  function InOrder(labels: seq<nat>, k: nat): (es: seq<Event>)
    requires forall v :: 1 <= v <= k ==> v in labels
    ensures |es| == k && OnBoard(es, |labels|)
    ensures forall j :: 0 <= j < k ==> es[j].interaction == Pressed && labels[es[j].tile] == j + 1
  {
    if k == 0 then [] else InOrder(labels, k - 1) + [Event(IndexOf(labels, k), Pressed)]
  }

  lemma {:induction false} InOrderAdvances(s: State, k: nat)
    requires WellFormed(s) && s.next == 1
    requires forall v :: 1 <= v <= k ==> v in s.labels
    ensures ApplyAll(s, InOrder(s.labels, k)).next == k + 1
  {
    if k > 0 {
      var es := InOrder(s.labels, k);
      assert es[..k - 1] == InOrder(s.labels, k - 1);
      InOrderAdvances(s, k - 1);
    }
  }

  /**
   * A fresh session on a grid holding each label 1..=n once is completed by
   * pressing the tiles in label order, and not before the n-th of those
   * presses; no frame of fewer than n entries completes it.
   */
  lemma SessionCompletable(s: State, n: nat)
    requires WellFormed(s) && s.next == 1 && s.score == 0
    requires Numbers.IsPermutationOf(s.labels, Numbers.Range(1, n + 1))
    ensures forall v :: 1 <= v <= n ==> v in s.labels
    ensures Complete(ApplyAll(s, InOrder(s.labels, n)), n)
    ensures forall k :: 0 <= k < n ==> !Complete(ApplyAll(s, InOrder(s.labels, k)), n)
    ensures forall es :: OnBoard(es, |s.labels|) && |es| < n ==> !Complete(ApplyAll(s, es), n)
  {
    Numbers.PermutationFacts(s.labels, n);
    InOrderAdvances(s, n);
    forall k | 0 <= k < n
      ensures !Complete(ApplyAll(s, InOrder(s.labels, k)), n)
    {
      InOrderAdvances(s, k);
    }
  }

  /** One tile's blink, advanced by one frame of `delta` nanoseconds. */
  function TickTile(c: Colour, b: Option<Timer>, delta: nat): (Colour, Option<Timer>)
  {
    match b
    case None => (c, None)
    case Some(t) =>
      var t' := Tick(t, delta);
      if Finished(t') then (Default, None) else (c, Some(t'))
  }

  /**
   * `blink_system`: every blinking tile's timer advances by delta; a finished one
   * restores the DEFAULT colour and is removed, an unfinished one leaves the
   * colour alone. Tiles that are not blinking, and the counters, do not change.
   */
  function TickBlinks(s: State, delta: nat): (r: State)
    requires WellFormed(s)
    ensures WellFormed(r) && r.next == s.next && r.score == s.score && r.labels == s.labels
    ensures forall i :: 0 <= i < |s.labels| && s.blink[i] == None ==>
      r.colour[i] == s.colour[i] && r.blink[i] == None
    ensures forall i :: 0 <= i < |s.labels| && s.blink[i].Some? && Finished(Tick(s.blink[i].value, delta)) ==>
      r.colour[i] == Default && r.blink[i] == None
    ensures forall i :: 0 <= i < |s.labels| && s.blink[i].Some? && !Finished(Tick(s.blink[i].value, delta)) ==>
      r.colour[i] == s.colour[i] && r.blink[i] == Some(Tick(s.blink[i].value, delta))
  {
    s.(colour := seq(|s.labels|, i requires 0 <= i < |s.labels| => TickTile(s.colour[i], s.blink[i], delta).0),
       blink := seq(|s.labels|, i requires 0 <= i < |s.labels| => TickTile(s.colour[i], s.blink[i], delta).1))
  }

  function Sum(ds: seq<nat>): nat
  {
    if ds == [] then 0 else Sum(ds[..|ds| - 1]) + ds[|ds| - 1]
  }

  /** A run of frames with no presses, frame k lasting ds[k] nanoseconds. */
  function TickMany(s: State, ds: seq<nat>): (r: State)
    requires WellFormed(s)
    ensures WellFormed(r) && r.next == s.next && r.score == s.score && r.labels == s.labels
  {
    if ds == [] then s else TickBlinks(TickMany(s, ds[..|ds| - 1]), ds[|ds| - 1])
  }

  /**
   * A tile whose blink timer has not yet finished keeps its colour while less
   * than the remaining time passes, and is back to DEFAULT with no timer once
   * the remaining time has passed.
   */
  lemma {:induction false} BlinkLifetime(s: State, ds: seq<nat>, i: nat)
    requires WellFormed(s) && i < |s.labels|
    requires s.blink[i].Some? && Clamped(s.blink[i].value) && !Finished(s.blink[i].value)
    ensures var t, r := s.blink[i].value, TickMany(s, ds);
      if t.elapsed + Sum(ds) < t.duration
      then r.colour[i] == s.colour[i] && r.blink[i] == Some(Timer(t.duration, t.elapsed + Sum(ds)))
      else r.colour[i] == Default && r.blink[i] == None
  {
    if ds != [] {
      BlinkLifetime(s, ds[..|ds| - 1], i);
    }
  }

  /** A tile that is not blinking keeps its colour and stays without a timer. */
  lemma {:induction false} IdleTileUnchanged(s: State, ds: seq<nat>, i: nat)
    requires WellFormed(s) && i < |s.labels| && s.blink[i] == None
    ensures TickMany(s, ds).colour[i] == s.colour[i] && TickMany(s, ds).blink[i] == None
  {
    if ds != [] {
      IdleTileUnchanged(s, ds[..|ds| - 1], i);
    }
  }

  /**
   * The feedback of one press: the tile shows CORRECT or INCORRECT for less
   * than TIMER_DURATION of following frames, then DEFAULT with no timer.
   */
  lemma PressFeedback(s: State, i: nat, ds: seq<nat>)
    requires WellFormed(s) && i < |s.labels|
    ensures var r := TickMany(Press(s, i), ds);
      if Sum(ds) < TIMER_DURATION
      then r.colour[i] == (if s.labels[i] == s.next then Correct else Incorrect)
      else r.colour[i] == Default && r.blink[i] == None
  {
    BlinkLifetime(Press(s, i), ds, i);
  }

  /**
   * A press as the Bevy versions write it, with `NextExpected` and `Score`
   * held in `u8`: `+= 1` wraps past 255 when overflow checks are off.
   */
  function PressU8(s: State, i: nat): (r: State)
    requires WellFormed(s) && i < |s.labels| && s.next < 256 && s.score < 256
    ensures WellFormed(r) && r.labels == s.labels && r.next < 256 && r.score < 256
    ensures s.labels[i] == s.next ==> r.next == (s.next + 1) % 256 && r.score == (s.score + 1) % 256 && r.colour[i] == Correct
    ensures s.labels[i] != s.next ==> r.next == s.next && r.score == s.score && r.colour[i] == Incorrect
    ensures r.blink[i] == Some(Start(TIMER_DURATION))
    ensures forall j :: 0 <= j < |s.labels| && j != i ==> r.colour[j] == s.colour[j] && r.blink[j] == s.blink[j]
  {
    var blink := s.blink[i := Some(Start(TIMER_DURATION))];
    if s.labels[i] == s.next then
      s.(next := (s.next + 1) % 256, score := (s.score + 1) % 256, colour := s.colour[i := Correct], blink := blink)
    else
      s.(colour := s.colour[i := Incorrect], blink := blink)
  }

  /** A frame's query entries with the `u8` counters. */
  function ApplyAllU8(s: State, es: seq<Event>): (r: State)
    requires WellFormed(s) && OnBoard(es, |s.labels|) && s.next < 256 && s.score < 256
    ensures WellFormed(r) && r.labels == s.labels && r.next < 256 && r.score < 256
    decreases |es|
  {
    if es == [] then s
    else
      var p := ApplyAllU8(s, es[..|es| - 1]);
      var e := es[|es| - 1];
      if e.interaction == Pressed then PressU8(p, e.tile) else p
  }

  /**
   * On a grid of at most 254 tiles the `u8` counters never wrap: a frame's
   * entries with them give exactly the unbounded result, so the session
   * invariant holds for the program as written.
   */
  lemma {:induction false} U8AgreesBelow255(s: State, es: seq<Event>, n: nat)
    requires Invariant(s, n) && n <= 254 && OnBoard(es, |s.labels|)
    ensures ApplyAllU8(s, es) == ApplyAll(s, es)
    ensures Invariant(ApplyAllU8(s, es), n)
    decreases |es|
  {
    ApplyAllKeepsInvariant(s, es, n);
    if es != [] {
      var es', e := es[..|es| - 1], es[|es| - 1];
      assert OnBoard(es', |s.labels|) by {
        assert forall k :: 0 <= k < |es'| ==> es'[k] == es[k];
      }
      U8AgreesBelow255(s, es', n);
      ApplyAllKeepsInvariant(s, es', n);
      var p := ApplyAll(s, es');
      if e.interaction == Pressed {
        PressU8AgreesBelow255(p, e.tile, n);
      }
    }
  }

  /** A single press on a grid of at most 254 tiles does not wrap. */
  lemma PressU8AgreesBelow255(s: State, i: nat, n: nat)
    requires Invariant(s, n) && n <= 254 && i < |s.labels|
    ensures PressU8(s, i) == Press(s, i)
  {
  }

  /**
   * Once the `u8` NextExpected has wrapped to 0 no tile matches it, since every
   * label is at least 1: it stays 0 through any later entries, so the game is
   * never over.
   */
  lemma {:induction false} U8CounterStuckAtZero(s: State, es: seq<Event>, n: nat)
    requires WellFormed(s) && OnBoard(es, |s.labels|) && s.next == 0 && s.score < 256
    requires forall k :: 0 <= k < |s.labels| ==> s.labels[k] >= 1
    ensures ApplyAllU8(s, es).next == 0 && !Complete(ApplyAllU8(s, es), n)
    decreases |es|
  {
    if es != [] {
      var es' := es[..|es| - 1];
      assert OnBoard(es', |s.labels|) by {
        assert forall k :: 0 <= k < |es'| ==> es'[k] == es[k];
      }
      U8CounterStuckAtZero(s, es', n);
    }
  }

  /**
   * On a 255-tile grid, whose labels still fit the `as u8` cast, the press of
   * the last label wraps `NextExpected` to 0: the session invariant breaks and
   * no later frame ends the game, whereas the unbounded counter completes it.
   */
  lemma U8CounterWrapsOnFullGrid(es: seq<Event>)
    requires OnBoard(es, 255)
    ensures var s := State(255, 254, Numbers.Range(1, 256), seq(255, _ => Default), seq(255, _ => None));
      && Invariant(s, 255) && s.labels[254] == 255
      && PressU8(s, 254).next == 0 && !Invariant(PressU8(s, 254), 255)
      && !Complete(ApplyAllU8(PressU8(s, 254), es), 255)
      && Invariant(Press(s, 254), 255) && Complete(Press(s, 254), 255)
  {
    var s := State(255, 254, Numbers.Range(1, 256), seq(255, _ => Default), seq(255, _ => None));
    U8CounterStuckAtZero(PressU8(s, 254), es, 255);
  }
}
