/**
 * The encoder registry and the directory-replay frame source.
 *
 * `frame_stream` is a generator: nothing runs until the first pull, which lists
 * the frame directory once, sorts the names, then opens, reads and yields the
 * files one per pull, starting again from the first name after the last. While
 * it is suspended at a yield the current file is held open by its `with` block.
 * Closing it at a yield releases that file and ends it. Here the generator's
 * suspended state is `Cursor`, one pull is `Step`, closing is `CloseStep`, and
 * the class `FrameStream` carries out both in place.
 */
module StreamingUtils {
  import opened Wrappers
  import opened LexOrder
  import opened Multipart

  // ---------------------------------------------------------------- registry

  /** The two encoders; their internals are not part of this model. */
  datatype EncoderTag = Mpeg4 | Mjpeg

  /** `method_to_encoder`: built once, never modified. */
  const Registry: map<string, EncoderTag> := map["mpeg4" := Mpeg4, "mjpeg" := Mjpeg]

  /** `method_to_encoder.get(name)`: an exact, case-sensitive key match. */
  function Resolve(name: string): (r: Option<EncoderTag>)
    ensures r.Some? <==> name == "mpeg4" || name == "mjpeg"
    ensures name == "mpeg4" ==> r == Some(Mpeg4)
    ensures name == "mjpeg" ==> r == Some(Mjpeg)
  {
    if name in Registry then Some(Registry[name]) else None
  }

  // ------------------------------------------------------------ frame source

  /** The frame directory at the moment of a pull: file name to file content. */
  type Directory = map<string, seq<byte>>

  /** Where the generator stands between pulls. */
  datatype Phase =
    | Created    // not started: the body has not run, nothing is listed yet
    | Suspended  // at `yield`, inside the `with` block of the current file
    | Spinning   // the listing was empty: the outer loop runs forever and the pull never returns
    | Finished   // closed, or ended by an error

  /** What one pull gives the consumer. */
  datatype Outcome =
    | Frame(data: seq<byte>)  // the full content of one file
    | Stalled                 // the pull does not return
    | Missing(name: string)   // `open` raised: the listed file is gone; the generator ends
    | Stopped                 // `StopIteration`: the generator has ended

  datatype Cursor = Cursor(phase: Phase, images: seq<string>, cur: nat, handle: Option<string>)
  {
    /** At a yield exactly the current file is open; before the first pull nothing is listed. */
    ghost predicate Valid()
    {
      && (phase == Created ==> images == [] && handle == None)
      && (phase == Spinning ==> images == [] && handle == None)
      && (phase == Suspended ==> cur < |images| && handle == Some(images[cur]))
      && (phase == Finished ==> handle == None)
    }
  }

  const Initial: Cursor := Cursor(Created, [], 0, None)

  /** Opens `images[i]`, reads it whole and yields it; a missing file ends the generator. */
  function Open(images: seq<string>, i: nat, dir: Directory): (res: (Cursor, Outcome))
    requires i < |images|
    ensures res.0.images == images && res.0.cur == i
    ensures res.1.Frame? <==> images[i] in dir
    ensures res.1.Frame? ==> res.1.data == dir[images[i]] && res.0.phase == Suspended && res.0.handle == Some(images[i])
    ensures !res.1.Frame? ==> res.1 == Missing(images[i]) && res.0.phase == Finished && res.0.handle == None
  {
    if images[i] in dir then (Cursor(Suspended, images, i, Some(images[i])), Frame(dir[images[i]]))
    else (Cursor(Finished, images, i, None), Missing(images[i]))
  }

  /** One pull (`next()`) on the generator. */
  ghost function Step(c: Cursor, dir: Directory): (res: (Cursor, Outcome))
    requires c.Valid()
    ensures res.0.Valid()
    ensures res.1.Frame? <==> res.0.phase == Suspended
    ensures c.phase == Created ==> res.0.images == Listing(dir.Keys)
    ensures c.phase != Created ==> res.0.images == c.images
  {
    match c.phase
    case Created =>
      var images := Listing(dir.Keys);
      if images == [] then (Cursor(Spinning, [], 0, None), Stalled) else Open(images, 0, dir)
    case Suspended =>
      Open(c.images, Following(c.cur, |c.images|), dir)
    case Spinning => (c, Stalled)
    case Finished => (c, Stopped)
  }

  /** `close()`: at a yield, `GeneratorExit` leaves the `with` block, releasing the file, and the body returns. */
  function CloseStep(c: Cursor): (c': Cursor)
    requires c.Valid()
    ensures c'.Valid() && c'.images == c.images
    ensures c.phase != Spinning ==> c'.phase == Finished && c'.handle == None
  {
    match c.phase
    case Created => c.(phase := Finished)
    case Suspended => c.(phase := Finished, handle := None)
    case Spinning => c
    case Finished => c
  }

  /** The pulls of a consumer that pulls once per directory snapshot in `dirs`. */
  ghost function Run(c: Cursor, dirs: seq<Directory>): (pulls: seq<Outcome>)
    requires c.Valid()
    ensures |pulls| == |dirs|
    decreases |dirs|
  {
    if dirs == [] then []
    else
      var (c', p) := Step(c, dirs[0]);
      [p] + Run(c', dirs[1..])
  }

  /** Every name of the listing `images` is still a file in every snapshot of `dirs`. */
  ghost predicate AllPresent(images: seq<string>, dirs: seq<Directory>)
  {
    forall i, k | 0 <= i < |dirs| && 0 <= k < |images| :: images[k] in dirs[i]
  }

  lemma MulBound(n: int, k: int)
    requires n > 0
    ensures k >= 1 ==> n * k >= n
    ensures k <= -1 ==> n * k <= -n
  {
  }

  lemma SmallMod(x: nat, n: nat)
    requires x < n
    ensures x % n == x
  {
    MulBound(n, x / n);
  }

  lemma AddModulus(i: nat, n: nat)
    requires n > 0
    ensures (n + i) % n == i % n
  {
    var q, r := i / n, i % n;
    var q', r' := (n + i) / n, (n + i) % n;
    assert n * (q + 1 - q') == r' - r;
    MulBound(n, q + 1 - q');
  }

  /** The position after `cur` in a list of `n` names: the `for` loop moves on, or `while True` starts it again. */
  function Following(cur: nat, n: nat): (next: nat)
    requires cur < n
    ensures next < n && next == (cur + 1) % n
  {
    if cur + 1 == n then AddModulus(0, n); 0 else SmallMod(cur + 1, n); cur + 1
  }

  lemma FollowingIsModular(cur: nat, n: nat, j: nat)
    requires cur < n
    ensures (Following(cur, n) + 1 + j) % n == (cur + 1 + (j + 1)) % n
  {
    if cur + 1 == n {
      AddModulus(1 + j, n);
    }
  }

  lemma {:induction false} CycleAt(c: Cursor, dirs: seq<Directory>, i: nat)
    requires c.Valid() && c.phase == Suspended && AllPresent(c.images, dirs) && i < |dirs|
    ensures Run(c, dirs)[i] == Frame(dirs[i][c.images[(c.cur + 1 + i) % |c.images|]])
    decreases i
  {
    var n := |c.images|;
    var next := Following(c.cur, n);
    FollowingIsModular(c.cur, n, if i > 0 then i - 1 else 0);
    assert Step(c, dirs[0]) == Open(c.images, next, dirs[0]);
    RunCons(c, dirs);
    if i > 0 {
      var c' := Cursor(Suspended, c.images, next, Some(c.images[next]));
      assert AllPresent(c.images, dirs[1..]);
      CycleAt(c', dirs[1..], i - 1);
    }
  }

  lemma RunCons(c: Cursor, dirs: seq<Directory>)
    requires c.Valid() && dirs != []
    ensures Run(c, dirs) == [Step(c, dirs[0]).1] + Run(Step(c, dirs[0]).0, dirs[1..])
  {
  }

  /** A fresh stream's first pull lists the directory and yields the first name in sorted order. */
  lemma FirstPullOpensFirstName(dir: Directory, images: seq<string>)
    requires images == Listing(dir.Keys) && images != []
    ensures images[0] in dir
    ensures Step(Initial, dir) == (Cursor(Suspended, images, 0, Some(images[0])), Frame(dir[images[0]]))
  {
    assert images[0] in Elems(images);
  }

  /**
   * With at least one file listed at the first pull, and every listed file still
   * there, the k-th pull (from 0) yields the whole content of the (k mod n)-th
   * name in sorted order: the stream wraps around and never ends on its own.
   */
  lemma CycleFromStart(dirs: seq<Directory>, images: seq<string>)
    requires dirs != [] && images == Listing(dirs[0].Keys) && images != []
    requires AllPresent(images, dirs)
    ensures forall i | 0 <= i < |dirs| :: Run(Initial, dirs)[i] == Frame(dirs[i][images[i % |images|]])
  {
    FirstPullOpensFirstName(dirs[0], images);
    RunCons(Initial, dirs);
    CycleAfterFirst(dirs, images, Run(Initial, dirs));
  }

  lemma CycleAfterFirst(dirs: seq<Directory>, images: seq<string>, pulls: seq<Outcome>)
    requires dirs != [] && images != [] && AllPresent(images, dirs) && images[0] in dirs[0]
    requires pulls == [Frame(dirs[0][images[0]])] + Run(Cursor(Suspended, images, 0, Some(images[0])), dirs[1..])
    ensures forall i | 0 <= i < |dirs| :: pulls[i] == Frame(dirs[i][images[i % |images|]])
  {
    var c := Cursor(Suspended, images, 0, Some(images[0]));
    var rest := dirs[1..];
    SmallMod(0, |images|);
    assert AllPresent(images, rest);
    forall i | 0 < i < |dirs|
      ensures pulls[i] == Frame(dirs[i][images[i % |images|]])
    {
      CycleAt(c, rest, i - 1);
      assert rest[i - 1] == dirs[i] && 0 + 1 + (i - 1) == i;
      assert pulls[i] == Run(c, rest)[i - 1];
    }
  }

  lemma {:induction false} SpinningStalls(c: Cursor, dirs: seq<Directory>)
    requires c.Valid() && c.phase == Spinning
    ensures forall i | 0 <= i < |dirs| :: Run(c, dirs)[i] == Stalled
    decreases |dirs|
  {
    if dirs != [] {
      SpinningStalls(c, dirs[1..]);
      assert forall i | 0 < i < |dirs| :: Run(c, dirs)[i] == Run(c, dirs[1..])[i - 1];
    }
  }

  /** A directory that is empty at the first pull never yields a frame: every pull spins. */
  lemma {:induction false} EmptyDirectoryNeverYields(dirs: seq<Directory>)
    requires dirs != [] && dirs[0] == map[]
    ensures forall i | 0 <= i < |dirs| :: Run(Initial, dirs)[i] == Stalled
  {
    NoElemsIsEmpty(Listing(dirs[0].Keys));
    var (c, p) := Step(Initial, dirs[0]);
    SpinningStalls(c, dirs[1..]);
    assert forall i | 0 < i < |dirs| :: Run(Initial, dirs)[i] == Run(c, dirs[1..])[i - 1];
  }

  lemma {:induction false} FinishedStops(c: Cursor, dirs: seq<Directory>)
    requires c.Valid() && c.phase == Finished
    ensures forall i | 0 <= i < |dirs| :: Run(c, dirs)[i] == Stopped
    decreases |dirs|
  {
    if dirs != [] {
      FinishedStops(c, dirs[1..]);
      assert forall i | 0 < i < |dirs| :: Run(c, dirs)[i] == Run(c, dirs[1..])[i - 1];
    }
  }

  /** Once closed (before it started or at a yield), no pull opens or reads a file again. */
  lemma {:induction false} ClosedYieldsNothing(c: Cursor, dirs: seq<Directory>)
    requires c.Valid() && c.phase != Spinning
    ensures CloseStep(c).handle == None
    ensures forall i | 0 <= i < |dirs| :: Run(CloseStep(c), dirs)[i] == Stopped
  {
    FinishedStops(CloseStep(c), dirs);
  }

  /** Two snapshots agree on the listed files when each listed name is present in both or in neither, with the same content. */
  ghost predicate AgreeOn(images: seq<string>, d: Directory, e: Directory)
  {
    forall k | 0 <= k < |images| ::
      (images[k] in d <==> images[k] in e) && (images[k] in d ==> d[images[k]] == e[images[k]])
  }

  lemma {:induction false} OnlyListedFilesMatter(c: Cursor, dirs: seq<Directory>, dirs': seq<Directory>)
    requires c.Valid() && c.phase != Created && |dirs| == |dirs'|
    requires forall i | 0 <= i < |dirs| :: AgreeOn(c.images, dirs[i], dirs'[i])
    ensures Run(c, dirs) == Run(c, dirs')
    decreases |dirs|
  {
    if dirs != [] {
      var (c1, p1) := Step(c, dirs[0]);
      var (c2, p2) := Step(c, dirs'[0]);
      assert c1 == c2 && p1 == p2;
      OnlyListedFilesMatter(c1, dirs[1..], dirs'[1..]);
    }
  }

  /**
   * The listing is taken once, at the first pull: files added to or removed from
   * the directory afterwards, other than the listed ones, change nothing.
   */
  lemma {:induction false} ListingTakenOnce(dirs: seq<Directory>, dirs': seq<Directory>)
    requires dirs != [] && |dirs| == |dirs'| && dirs'[0] == dirs[0]
    requires forall i | 0 <= i < |dirs| :: AgreeOn(Listing(dirs[0].Keys), dirs[i], dirs'[i])
    ensures Run(Initial, dirs) == Run(Initial, dirs')
  {
    var (c, p) := Step(Initial, dirs[0]);
    OnlyListedFilesMatter(c, dirs[1..], dirs'[1..]);
  }

  class FrameStream {
    var phase: Phase
    var images: seq<string>
    var cur: nat
    var handle: Option<string>

    ghost function State(): Cursor
      reads this
    {
      Cursor(phase, images, cur, handle)
    }

    ghost predicate Valid()
      reads this
    {
      State().Valid()
    }

    /** `frame_stream()`: creating the generator runs none of its body. */
    constructor ()
      ensures Valid() && State() == Initial
    {
      phase, images, cur, handle := Created, [], 0, None;
    }

    method OpenAt(i: nat, dir: Directory) returns (r: Outcome)
      requires i < |images| && handle == None
      modifies this
      ensures Valid()
      ensures (State(), r) == Open(old(images), i, dir)
    {
      cur := i;
      if images[i] in dir {
        handle := Some(images[i]);
        phase := Suspended;
        r := Frame(dir[images[i]]);
      } else {
        phase := Finished;
        r := Missing(images[i]);
      }
    }

    method Next(dir: Directory) returns (r: Outcome)
      requires Valid()
      modifies this
      ensures Valid()
      ensures (State(), r) == Step(old(State()), dir)
    {
      match phase {
        case Created =>
          var names := SortedNames(dir.Keys);
          images := names;
          if names == [] {
            // `for image in []` ends at once and `while True` never does
            phase, cur := Spinning, 0;
            r := Stalled;
          } else {
            r := OpenAt(0, dir);
          }
        case Suspended =>
          // the `with` block ends before the loop moves on
          handle := None;
          var next := cur + 1;
          if next == |images| {
            // the `for` loop is exhausted; `while True` starts it again
            next := 0;
          }
          r := OpenAt(next, dir);
        case Spinning =>
          r := Stalled;
        case Finished =>
          r := Stopped;
      }
    }

    method Close()
      requires Valid()
      modifies this
      ensures Valid()
      ensures State() == CloseStep(old(State()))
    {
      match phase {
        case Created =>
          phase := Finished;
        case Suspended =>
          handle := None;
          phase := Finished;
        case Spinning =>
        case Finished =>
      }
    }
  }
}
