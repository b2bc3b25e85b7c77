/**
 * The game world of the two Bevy versions of the puzzle (`src/game.rs` and
 * `src/lib.rs`): the `NextExpected` and `Score` resources, and for every spawned
 * tile its `TileButton` label, its `BackgroundColor` and its `TileBlink` timer,
 * if it has one. Systems are methods that update these in place.
 */
module Session {
  import opened Wrappers
  import opened OneShot
  import opened Rules
  import Numbers

  class World {
    /** WIDTH and HEIGHT of the grid. */
    const width: nat
    const height: nat
    /** The `NextExpected` resource: the label the player must press next. */
    var next: nat
    /** The `Score` resource: the number of correct presses. */
    var score: nat
    /** Tile i in spawn order carries `TileButton { number: labels[i] }`, */
    var labels: seq<nat>
    /** shows `colour[i]`, */
    var colour: seq<Colour>
    /** and carries a `TileBlink` component exactly when `blink[i]` is `Some`. */
    var blink: seq<Option<Timer>>

    function Model(): State
      reads this
    {
      State(next, score, labels, colour, blink)
    }

    ghost predicate Valid()
      reads this
    {
      Invariant(Model(), width * height)
    }

    /**
     * The resources before the first session: `NextExpected` 1 (its `Default`
     * in the second version, `insert_resource` in the first), `Score` 0, no tiles.
     */
    constructor (width: nat, height: nat)
      ensures this.width == width && this.height == height
      ensures next == 1 && score == 0 && labels == [] && colour == [] && blink == []
      ensures Valid()
    {
      this.width, this.height := width, height;
      next, score := 1, 0;
      labels, colour, blink := [], [], [];
    }

    /** Spawns one tile per number, in order, with the DEFAULT colour and no blink. */
    method SpawnTiles(numbers: seq<nat>)
      requires Valid()
      requires forall k :: 0 <= k < |numbers| ==> 1 <= numbers[k] <= width * height
      modifies this
      ensures Valid() && next == old(next) && score == old(score)
      ensures labels == old(labels) + numbers
      ensures colour == old(colour) + seq(|numbers|, _ => Default)
      ensures blink == old(blink) + seq(|numbers|, _ => None)
    {
      for k := 0 to |numbers|
        invariant Valid() && next == old(next) && score == old(score)
        invariant labels == old(labels) + numbers[..k]
        invariant colour == old(colour) + seq(k, _ => Default)
        invariant blink == old(blink) + seq(k, _ => None)
      {
        labels := labels + [numbers[k]];
        colour := colour + [Default];
        blink := blink + [None];
        assert numbers[..k + 1] == numbers[..k] + [numbers[k]];
      }
      assert numbers[..|numbers|] == numbers;
    }

    /**
     * `setup` of the first version: the labels 1..=(WIDTH * HEIGHT) as u8,
     * shuffled, each spawned as a tile. The counters are left as they are.
     */
    method Setup()
      requires Valid()
      modifies this
      ensures Valid() && next == old(next) && score == old(score)
      ensures |labels| == |old(labels)| + Numbers.CastU8(width * height)
      ensures labels[..|old(labels)|] == old(labels)
      ensures Numbers.IsPermutationOf(labels[|old(labels)|..], Numbers.Range(1, Numbers.CastU8(width * height) + 1))
      ensures colour == old(colour) + seq(|labels| - |old(labels)|, _ => Default)
      ensures blink == old(blink) + seq(|labels| - |old(labels)|, _ => None)
    {
      var numbers := Numbers.GridLabels(width, height);
      Numbers.PermutationFacts(numbers, Numbers.CastU8(width * height));
      SpawnTiles(numbers);
      assert labels[|old(labels)|..] == numbers;
    }

    /**
     * `game_setup` of the second version: whatever the previous session left in
     * the counters, `NextExpected` is reset to 1 and `Score` to 0; then the
     * shuffled labels are spawned as tiles.
     */
    method GameSetup()
      requires WellFormed(Model())
      requires forall k :: 0 <= k < |labels| ==> 1 <= labels[k] <= width * height
      modifies this
      ensures Valid() && next == 1 && score == 0
      ensures |labels| == |old(labels)| + Numbers.CastU8(width * height)
      ensures labels[..|old(labels)|] == old(labels)
      ensures Numbers.IsPermutationOf(labels[|old(labels)|..], Numbers.Range(1, Numbers.CastU8(width * height) + 1))
      ensures colour == old(colour) + seq(|labels| - |old(labels)|, _ => Default)
      ensures blink == old(blink) + seq(|labels| - |old(labels)|, _ => None)
    {
      next := 1;
      score := 0;
      Setup();
    }

    /** The body of the `Pressed` arm, shared by both versions. */
    method PressTile(i: nat)
      requires Valid() && i < |labels|
      modifies this
      ensures Valid() && Model() == Press(old(Model()), i)
    {
      var correct := labels[i] == next;
      if correct {
        next := next + 1;
        score := score + 1;
      }
      colour := colour[i := if correct then Correct else Incorrect];
      blink := blink[i := Some(Start(TIMER_DURATION))];
      ApplyAllKeepsInvariant(old(Model()), [Event(i, Pressed)], width * height);
      assert [Event(i, Pressed)][..0] == [];
    }

    /**
     * `game` of the second version: the frame's changed interactions in turn,
     * then a single completion check. GameOver is requested exactly when
     * `NextExpected` exceeds WIDTH * HEIGHT after the frame's presses.
     */
    method Game(events: seq<Event>) returns (gameOver: bool)
      requires Valid() && OnBoard(events, |labels|)
      modifies this
      ensures Valid() && Model() == ApplyAll(old(Model()), events)
      ensures gameOver <==> Complete(Model(), width * height)
    {
      ghost var s0 := Model();
      for k := 0 to |events|
        invariant Valid() && labels == s0.labels
        invariant Model() == ApplyAll(s0, events[..k])
      {
        assert events[..k + 1][..k] == events[..k];
        if events[k].interaction == Pressed {
          PressTile(events[k].tile);
        }
      }
      assert events[..|events|] == events;
      gameOver := next > width * height;
    }

    /**
     * `button_click_handler` of the first version: the completion check runs
     * after each press, so GameOver is requested exactly when some press of the
     * frame leaves `NextExpected` above WIDTH * HEIGHT.
     */
    method ButtonClickHandler(events: seq<Event>) returns (gameOver: bool)
      requires Valid() && OnBoard(events, |labels|)
      modifies this
      ensures Valid() && Model() == ApplyAll(old(Model()), events)
      ensures gameOver <==> FrameRequests(old(Model()), events, width * height)
    {
      ghost var s0 := Model();
      gameOver := false;
      for k := 0 to |events|
        invariant Valid() && labels == s0.labels
        invariant Model() == ApplyAll(s0, events[..k])
        invariant gameOver <==> exists j :: 0 <= j < k && RequestAt(s0, events, width * height, j)
      {
        assert events[..k + 1][..k] == events[..k];
        if events[k].interaction == Pressed {
          PressTile(events[k].tile);
          if next > width * height {
            gameOver := true;
          }
        }
        assert RequestAt(s0, events, width * height, k) <==> events[k].interaction == Pressed && next > width * height;
      }
      assert events[..|events|] == events;
    }

    /**
     * `blink_system`: each blinking tile's timer advances by the frame's delta;
     * a finished one restores the DEFAULT colour and the blink is removed.
     */
    method BlinkSystem(delta: nat)
      requires Valid()
      modifies this
      ensures Valid() && Model() == TickBlinks(old(Model()), delta)
    {
      ghost var s0 := Model();
      for i := 0 to |labels|
        invariant Valid() && next == s0.next && score == s0.score && labels == s0.labels
        invariant forall j :: 0 <= j < i ==> (colour[j], blink[j]) == TickTile(s0.colour[j], s0.blink[j], delta)
        invariant forall j :: i <= j < |labels| ==> colour[j] == s0.colour[j] && blink[j] == s0.blink[j]
      {
        match blink[i]
        case None =>
        case Some(t) =>
          var t' := Tick(t, delta);
          blink := blink[i := Some(t')];
          if Finished(t') {
            colour := colour[i := Default];
            blink := blink[i := None];
          }
      }
      assert colour == TickBlinks(s0, delta).colour;
      assert blink == TickBlinks(s0, delta).blink;
    }
  }
}
