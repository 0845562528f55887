/**
 * A candidate solution (struct triangles): a fixed array of `count` shape
 * slots of which the first `inuse` are drawn, and mutatetriangles, which
 * edits it in place.
 */
module ShapeSets {
  import opened Random
  import opened Shapes
  import opened Generate

  /** The draws of one iteration of the mutation loop: the slot, the rate coin, mutatetriangle's choice and the rest. */
  datatype BatchDraw = BatchDraw(pick: int, coin: int, choice: int, rest: seq<int>)

  predicate IsBatchDraw(d: BatchDraw) {
    IsDraw(d.pick) && IsDraw(d.coin) && IsDraw(d.choice) && IsDraws(d.rest, 6)
  }

  /** Every draw one call of mutatetriangles may take; each decision has its own. */
  datatype EditDraws = EditDraws(
    growCoin: int, growKind: int, shape: seq<int>,
    removeCoin: int, removeIndex: int,
    swapCoin: int, swapA: int, swapB: int,
    batch: seq<BatchDraw>)

  predicate IsEditDraws(d: EditDraws, trials: nat) {
    IsDraw(d.growCoin) && IsDraw(d.growKind) && IsDraws(d.shape, SMALL_SHAPE_DRAWS) &&
    IsDraw(d.removeCoin) && IsDraw(d.removeIndex) &&
    IsDraw(d.swapCoin) && IsDraw(d.swapA) && IsDraw(d.swapB) &&
    |d.batch| == trials && forall j :: 0 <= j < |d.batch| ==> IsBatchDraw(d.batch[j])
  }

  /** The growth branch of mutatetriangles is taken: one chance in ten, room left, below the incremental budget. */
  predicate GrowFires(d: EditDraws, inuse: int, count: int, maxIncremental: int) {
    d.growCoin % 10 == 0 && inuse != count && inuse < maxIncremental
  }

  /** The removal branch is taken (when growth was not): one chance in twenty and more than one shape in use. */
  predicate RemoveFires(d: EditDraws, inuse: int) {
    d.removeCoin % 20 == 0 && inuse > 1
  }

  /** The spread randomsmalltriangle is given by growth kinds 1, 2, 3 and 4. */
  function SmallSpread(kind: int): int {
    if kind == 1 then 5 else if kind == 2 then 10 else if kind == 3 then 25 else 2
  }

  /**
   * The shape the growth branch adds for its draws: for kind kindDraw % 5 == 0
   * a random shape whose type ds[0] picks; for kinds 1 to 4 a small shape
   * whose type ds[2] picks, around the anchor (ds[0] % width, ds[1] % height)
   * with the kind's spread.
   */
  predicate GrownShape(t: Shape, width: int, height: int, opts: Options, kindDraw: int, ds: seq<int>) {
    width >= 1 && height >= 1 && IsDraws(ds, 3) &&
    if kindDraw % 5 == 0 then TypeOf(t) == SelectShapeType(opts, ds[0])
    else (TypeOf(t) == SelectShapeType(opts, ds[2]) &&
          PlacedAround(t, Point(ds[0] % width, ds[1] % height), SmallSpread(kindDraw % 5)))
  }

  /** The sequence with its i-th element deleted and the rest kept in order. */
  function RemovedAt<T>(s: seq<T>, i: int): (r: seq<T>)
    requires 0 <= i < |s|
    ensures |r| == |s| - 1
    ensures forall k {:trigger r[k]} :: 0 <= k < |r| ==> r[k] == if k < i then s[k] else s[k + 1]
  {
    s[..i] + s[i + 1..]
  }

  /** Removal loses exactly the deleted element. */
  lemma RemovedAtMultiset<T>(s: seq<T>, i: int)
    requires 0 <= i < |s|
    ensures multiset(RemovedAt(s, i)) + multiset{s[i]} == multiset(s)
  {
    assert s == s[..i] + [s[i]] + s[i + 1..];
  }

  /** A sequence that agrees with s with its i-th element skipped is RemovedAt(s, i). */
  lemma RemovedAtPointwise<T>(s: seq<T>, r: seq<T>, i: int)
    requires 0 <= i < |s| && |r| == |s| - 1
    requires forall k {:trigger r[k]} :: 0 <= k < |r| ==> r[k] == if k < i then s[k] else s[k + 1]
    ensures r == RemovedAt(s, i)
  {
  }

  /** The sequence with the elements at a and b exchanged. */
  function Swapped<T>(s: seq<T>, a: int, b: int): (r: seq<T>)
    requires 0 <= a < |s| && 0 <= b < |s|
    ensures |r| == |s| && r[a] == s[b] && r[b] == s[a]
    ensures forall k :: 0 <= k < |s| && k != a && k != b ==> r[k] == s[k]
    ensures multiset(r) == multiset(s)
  {
    s[a := s[b]][b := s[a]]
  }

  class ShapeSet {
    /** The slots; their number is the record's count. */
    var shapes: array<Shape>
    /** How many slots, from the first, are drawn. */
    var inuse: int

    ghost predicate Valid(width: int, height: int)
      reads this, shapes
    {
      1 <= inuse <= shapes.Length &&
      forall i :: 0 <= i < shapes.Length ==> WellFormed(shapes[i], width, height)
    }

    /** The shapes that are drawn, in drawing order. */
    ghost function Active(): seq<Shape>
      reads this, shapes
      requires 0 <= inuse <= shapes.Length
    {
      shapes[..inuse]
    }

    /** mkRandomtriangles: every slot gets a random shape, and only the first is in use. */
    constructor (count: int, width: int, height: int, opts: Options, draws: seq<seq<int>>)
      requires count >= 1 && width >= 1 && height >= 1
      requires |draws| == count && forall j :: 0 <= j < count ==> IsDraws(draws[j], RANDOM_SHAPE_DRAWS)
      ensures Valid(width, height) && fresh(shapes)
      ensures shapes.Length == count && inuse == 1
      ensures forall j :: 0 <= j < count ==>
        IsDraws(draws[j], RANDOM_SHAPE_DRAWS) && TypeOf(shapes[j]) == SelectShapeType(opts, draws[j][0])
    {
      var a := new Shape[count];
      for j := 0 to count
        invariant forall i :: 0 <= i < j ==> WellFormed(a[i], width, height)
        invariant forall i :: 0 <= i < j ==> TypeOf(a[i]) == SelectShapeType(opts, draws[i][0])
      {
        var s := RandomShape(width, height, opts, draws[j]);
        a[j] := s;
      }
      shapes := a;
      inuse := 1;
    }

    /** The two statements the main loop uses to copy a set: memcpy of src's count slots, then inuse. */
    method CopyFrom(src: ShapeSet)
      requires src != this && src.shapes != shapes && src.shapes.Length <= shapes.Length
      modifies this`inuse, shapes
      ensures inuse == old(src.inuse)
      ensures shapes[..src.shapes.Length] == old(src.shapes[..])
      ensures shapes[src.shapes.Length..] == old(shapes[src.shapes.Length..])
    {
      forall i | 0 <= i < src.shapes.Length {
        shapes[i] := src.shapes[i];
      }
      inuse := src.inuse;
    }

    /**
     * The body of the growth branch: random() % 5 picks a fully random shape
     * or a small one of spread 5, 10, 25 or 2; it fills slot inuse, which
     * then joins the drawn prefix.
     */
    method Grow(width: int, height: int, opts: Options, kindDraw: int, ds: seq<int>)
      requires Valid(width, height) && width >= 1 && height >= 1
      requires inuse < shapes.Length
      requires IsDraw(kindDraw) && IsDraws(ds, SMALL_SHAPE_DRAWS)
      modifies this`inuse, shapes
      ensures Valid(width, height)
      ensures inuse == old(inuse) + 1
      ensures shapes[..] == old(shapes[..])[old(inuse) := shapes[old(inuse)]]
      ensures GrownShape(shapes[old(inuse)], width, height, opts, kindDraw, ds)
    {
      var kind := kindDraw % 5;
      var s: Shape;
      if kind == 0 {
        s := RandomShape(width, height, opts, ds);
      } else if kind == 1 {
        s := RandomSmallShape(width, height, 5, opts, ds);
      } else if kind == 2 {
        s := RandomSmallShape(width, height, 10, opts, ds);
      } else if kind == 3 {
        s := RandomSmallShape(width, height, 25, opts, ds);
      } else {
        s := RandomSmallShape(width, height, 2, opts, ds);
      }
      shapes[inuse] := s;
      inuse := inuse + 1;
    }

    /**
     * The body of the removal branch: slot random() % inuse is deleted by
     * moving the later drawn slots down one place (memmove); the last old
     * drawn slot keeps its value but is no longer drawn.
     */
    method Remove(ghost width: int, ghost height: int, indexDraw: int) returns (deleted: int)
      requires Valid(width, height) && inuse > 1 && IsDraw(indexDraw)
      modifies this`inuse, shapes
      ensures deleted == Below(indexDraw, old(inuse))
      ensures Valid(width, height)
      ensures inuse == old(inuse) - 1
      ensures shapes[..inuse] == RemovedAt(old(shapes[..inuse]), deleted)
      ensures forall i :: inuse <= i < shapes.Length ==> shapes[i] == old(shapes[i])
    {
      ghost var before := shapes[..];
      deleted := Below(indexDraw, inuse);
      inuse := inuse - 1;
      forall i | deleted <= i < inuse {
        shapes[i] := shapes[i + 1];
      }
      assert before[..inuse + 1] == old(shapes[..inuse]);
      RemovedAtPointwise(before[..inuse + 1], shapes[..inuse], deleted);
    }

    /** The body of the swap branch: two slots random() % inuse are exchanged when they differ. */
    method Swap(aDraw: int, bDraw: int) returns (a: int, b: int)
      requires 1 <= inuse <= shapes.Length && IsDraw(aDraw) && IsDraw(bDraw)
      modifies shapes
      ensures a == Below(aDraw, inuse) && b == Below(bDraw, inuse)
      ensures shapes[..] == Swapped(old(shapes[..]), a, b)
      ensures a == b ==> shapes[..] == old(shapes[..])
    {
      a := Below(aDraw, inuse);
      b := Below(bDraw, inuse);
      if a != b {
        var aux := shapes[a];
        shapes[a] := shapes[b];
        shapes[b] := aux;
      }
    }

    /**
     * The closing loop of mutatetriangles: `trials` times, pick a drawn slot
     * at random (the same slot may come up again) and mutate it when
     * random() % 1000 is below the mutation rate.
     */
    method MutateBatch(trials: nat, width: int, height: int, rate: int, batch: seq<BatchDraw>)
      requires Valid(width, height) && width >= 1 && height >= 1
      requires |batch| == trials && forall j :: 0 <= j < |batch| ==> IsBatchDraw(batch[j])
      modifies shapes
      ensures Valid(width, height)
      ensures inuse == old(inuse)
      ensures forall i :: inuse <= i < shapes.Length ==> shapes[i] == old(shapes[i])
      ensures forall i :: 0 <= i < shapes.Length ==> TypeOf(shapes[i]) == TypeOf(old(shapes[i]))
      ensures rate <= 0 ==> shapes[..] == old(shapes[..])
    {
      for j := 0 to trials
        invariant Valid(width, height)
        invariant forall i :: inuse <= i < shapes.Length ==> shapes[i] == old(shapes[i])
        invariant forall i :: 0 <= i < shapes.Length ==> TypeOf(shapes[i]) == TypeOf(old(shapes[i]))
        invariant rate <= 0 ==> shapes[..] == old(shapes[..])
      {
        var idx := Below(batch[j].pick, inuse);
        if batch[j].coin % 1000 < rate {
          var m := MutateShape(shapes[idx], width, height, batch[j].choice, batch[j].rest);
          shapes[idx] := m;
        }
      }
    }

    /**
     * mutatetriangles: try growth, else removal, else a swap; growth and
     * removal return at once, otherwise the mutation loop runs `trials` times.
     */
    method Mutate(trials: nat, width: int, height: int, maxIncremental: int, opts: Options, rate: int, d: EditDraws)
      requires Valid(width, height) && width >= 1 && height >= 1 && IsEditDraws(d, trials)
      modifies this`inuse, shapes
      ensures Valid(width, height)
      ensures GrowFires(d, old(inuse), shapes.Length, maxIncremental) ==>
        inuse == old(inuse) + 1 && shapes[..] == old(shapes[..])[old(inuse) := shapes[old(inuse)]] &&
        GrownShape(shapes[old(inuse)], width, height, opts, d.growKind, d.shape)
      ensures !GrowFires(d, old(inuse), shapes.Length, maxIncremental) && RemoveFires(d, old(inuse)) ==>
        inuse == old(inuse) - 1 && Active() == RemovedAt(old(Active()), Below(d.removeIndex, old(inuse)))
      ensures !GrowFires(d, old(inuse), shapes.Length, maxIncremental) && !RemoveFires(d, old(inuse)) ==>
        inuse == old(inuse) && forall i :: inuse <= i < shapes.Length ==> shapes[i] == old(shapes[i])
      ensures !GrowFires(d, old(inuse), shapes.Length, maxIncremental) && !RemoveFires(d, old(inuse)) && rate <= 0 ==>
        shapes[..] == if d.swapCoin % 20 == 0 then Swapped(old(shapes[..]), Below(d.swapA, inuse), Below(d.swapB, inuse))
                      else old(shapes[..])
    {
      if d.growCoin % 10 == 0 {
        if inuse != shapes.Length && inuse < maxIncremental {
          Grow(width, height, opts, d.growKind, d.shape);
          return;
        }
      }
      if d.removeCoin % 20 == 0 {
        if inuse > 1 {
          var _ := Remove(width, height, d.removeIndex);
          return;
        }
      }
      if d.swapCoin % 20 == 0 {
        var _, _ := Swap(d.swapA, d.swapB);
      }
      MutateBatch(trials, width, height, rate, d.batch);
    }
  }
}
