/** The saved collection as a value: the list operations the persistence
    service applies to it (append-if-absent, remove-by-id and
    `move(fromOffsets:toOffset:)`), and what each of them keeps. */
module PhotoLists {
  import opened PhotoModel

  /** `contains(where: { $0.id == id })`, with ids compared code point by
      code point. */
  predicate HasId(xs: seq<Photos>, id: string)
  {
    exists i :: 0 <= i < |xs| && xs[i].id == id
  }

  /** The set of ids in the list. */
  function Ids(xs: seq<Photos>): set<string>
  {
    set p | p in xs :: p.id
  }

  /** No id occurs twice: the invariant of the saved collection. */
  predicate DistinctIds(xs: seq<Photos>)
  {
    forall i, j :: 0 <= i < j < |xs| ==> xs[i].id != xs[j].id
  }

  lemma HasIdIffInIds(xs: seq<Photos>, id: string)
    ensures HasId(xs, id) <==> id in Ids(xs)
  {
  }

  lemma IdsSnoc(xs: seq<Photos>, x: Photos)
    ensures Ids(xs + [x]) == Ids(xs) + {x.id}
  {
  }

  lemma DistinctIdsSnoc(xs: seq<Photos>, x: Photos)
    ensures DistinctIds(xs + [x]) <==> DistinctIds(xs) && x.id !in Ids(xs)
  {
    HasIdIffInIds(xs, x.id);
    var ys := xs + [x];
    if DistinctIds(xs) && !HasId(xs, x.id) {
      forall i, j | 0 <= i < j < |ys| ensures ys[i].id != ys[j].id {
        if j == |xs| {
          assert ys[i] == xs[i];
        } else {
          assert ys[i] == xs[i] && ys[j] == xs[j];
        }
      }
    }
    if DistinctIds(ys) {
      assert forall i, j :: 0 <= i < j < |xs| ==> xs[i] == ys[i] && xs[j] == ys[j];
      assert forall i :: 0 <= i < |xs| ==> xs[i] == ys[i] && ys[|xs|] == x;
    }
  }

  lemma DistinctIdsCons(x: Photos, xs: seq<Photos>)
    ensures DistinctIds([x] + xs) <==> x.id !in Ids(xs) && DistinctIds(xs)
  {
    HasIdIffInIds(xs, x.id);
    var ys := [x] + xs;
    assert ys[0] == x;
    assert forall k :: 0 <= k < |xs| ==> ys[k + 1] == xs[k];
    if DistinctIds(xs) && !HasId(xs, x.id) {
      forall i, j | 0 <= i < j < |ys| ensures ys[i].id != ys[j].id {
        assert ys[j] == xs[j - 1];
        if i > 0 {
          assert ys[i] == xs[i - 1];
        }
      }
    }
    if DistinctIds(ys) {
      forall i, j | 0 <= i < j < |xs| ensures xs[i].id != xs[j].id {
        assert ys[i + 1].id != ys[j + 1].id;
      }
      forall k | 0 <= k < |xs| ensures xs[k].id != x.id {
        assert ys[0].id != ys[k + 1].id;
      }
    }
  }

  /** A list never holds more distinct ids than elements. */
  lemma {:induction false} IdsBound(xs: seq<Photos>)
    ensures |Ids(xs)| <= |xs|
  {
    if xs != [] {
      var n := |xs| - 1;
      assert xs == xs[..n] + [xs[n]];
      IdsSnoc(xs[..n], xs[n]);
      IdsBound(xs[..n]);
    }
  }

  /** Ids are distinct exactly when there are as many ids as elements. */
  lemma {:induction false} DistinctIdsIffCard(xs: seq<Photos>)
    ensures DistinctIds(xs) <==> |Ids(xs)| == |xs|
  {
    if xs != [] {
      var n := |xs| - 1;
      var pre, x := xs[..n], xs[n];
      assert xs == pre + [x];
      IdsSnoc(pre, x);
      DistinctIdsSnoc(pre, x);
      DistinctIdsIffCard(pre);
      IdsBound(pre);
      if x.id in Ids(pre) {
        assert Ids(xs) == Ids(pre);
      } else {
        assert |Ids(xs)| == |Ids(pre)| + 1;
      }
    }
  }

  /** Two lists with the same elements, counted with multiplicity, have the
      same length, the same ids, and one has distinct ids iff the other has. */
  lemma PermutationKeepsIds(xs: seq<Photos>, ys: seq<Photos>)
    requires multiset(xs) == multiset(ys)
    ensures |xs| == |ys| && Ids(xs) == Ids(ys)
    ensures DistinctIds(xs) <==> DistinctIds(ys)
  {
    assert |xs| == |multiset(xs)| == |multiset(ys)| == |ys|;
    assert forall p :: p in xs <==> p in multiset(xs);
    assert forall p :: p in ys <==> p in multiset(ys);
    assert Ids(xs) == Ids(ys);
    DistinctIdsIffCard(xs);
    DistinctIdsIffCard(ys);
  }

  // ---------------------------------------------------------------------
  // saveImage: append unless the id is already present

  /** The list after `saveImage(image)`. The record is present by id
      afterwards, the old list is kept as a prefix, at most one element is
      added, and distinct ids stay distinct. */
  function Saved(xs: seq<Photos>, image: Photos): (r: seq<Photos>)
    ensures HasId(r, image.id)
    ensures |xs| <= |r| <= |xs| + 1 && r[..|xs|] == xs
    ensures Ids(r) == Ids(xs) + {image.id}
    ensures DistinctIds(xs) ==> DistinctIds(r)
  {
    HasIdIffInIds(xs, image.id);
    IdsSnoc(xs, image);
    DistinctIdsSnoc(xs, image);
    if HasId(xs, image.id) then xs else xs + [image]
  }

  /** Saving a record whose id is present, the same record or another one
      with that id, changes nothing; in particular saving twice is saving
      once. */
  lemma SavedIdempotentById(xs: seq<Photos>, image: Photos, again: Photos)
    requires again.id == image.id
    ensures Saved(Saved(xs, image), again) == Saved(xs, image)
  {
  }

  /** Saving a record whose id is absent appends it at the end. */
  lemma SavedAppendsFresh(xs: seq<Photos>, image: Photos)
    requires image.id !in Ids(xs)
    ensures Saved(xs, image) == xs + [image]
  {
  }

  // ---------------------------------------------------------------------
  // deleteImage: filter { $0.id != id }

  /** The list after `deleteImage(withId: id)`: every element with that id is
      gone and every other element is kept. */
  function WithoutId(xs: seq<Photos>, id: string): (r: seq<Photos>)
    ensures !HasId(r, id)
    ensures forall p :: p in r <==> p in xs && p.id != id
    ensures |r| <= |xs|
  {
    if xs == [] then []
    else (if xs[0].id == id then [] else [xs[0]]) + WithoutId(xs[1..], id)
  }

  /** Filtering distributes over concatenation, so the kept elements stay in
      their original relative order. */
  lemma {:induction false} WithoutIdAppend(xs: seq<Photos>, ys: seq<Photos>, id: string)
    ensures WithoutId(xs + ys, id) == WithoutId(xs, id) + WithoutId(ys, id)
  {
    if xs != [] {
      assert (xs + ys)[1..] == xs[1..] + ys;
      WithoutIdAppend(xs[1..], ys, id);
    } else {
      assert xs + ys == ys;
    }
  }

  /** Each element keeps its multiplicity unless it carries the id, in which
      case none is left. */
  lemma {:induction false} WithoutIdCounts(xs: seq<Photos>, id: string, p: Photos)
    ensures multiset(WithoutId(xs, id))[p] == if p.id == id then 0 else multiset(xs)[p]
  {
    if xs != [] {
      assert xs == [xs[0]] + xs[1..];
      WithoutIdCounts(xs[1..], id, p);
    }
  }

  /** Deleting an id that is not present leaves the list unchanged. */
  lemma {:induction false} WithoutAbsentId(xs: seq<Photos>, id: string)
    requires !HasId(xs, id)
    ensures WithoutId(xs, id) == xs
  {
    if xs != [] {
      assert forall k :: 0 <= k < |xs| - 1 ==> xs[1..][k] == xs[k + 1];
      assert xs[0].id != id;
      WithoutAbsentId(xs[1..], id);
      assert xs == [xs[0]] + xs[1..];
    }
  }

  /** Deleting keeps distinct ids distinct. */
  lemma {:induction false} WithoutIdKeepsDistinct(xs: seq<Photos>, id: string)
    requires DistinctIds(xs)
    ensures DistinctIds(WithoutId(xs, id))
  {
    if xs != [] {
      assert xs == [xs[0]] + xs[1..];
      DistinctIdsCons(xs[0], xs[1..]);
      WithoutIdKeepsDistinct(xs[1..], id);
      var rest := WithoutId(xs[1..], id);
      if xs[0].id != id {
        assert Ids(rest) <= Ids(xs[1..]);
        DistinctIdsCons(xs[0], rest);
      }
    }
  }

  /** Saving a record with a fresh id and deleting that id again gives back
      the list as it was. */
  lemma SaveThenDelete(xs: seq<Photos>, image: Photos)
    requires image.id !in Ids(xs)
    ensures WithoutId(Saved(xs, image), image.id) == xs
  {
    SavedAppendsFresh(xs, image);
    HasIdIffInIds(xs, image.id);
    WithoutIdAppend(xs, [image], image.id);
    WithoutAbsentId(xs, image.id);
    assert WithoutId([image], image.id) == [];
  }

  // ---------------------------------------------------------------------
  // reorderImages: move(fromOffsets:toOffset:)

  /** Where an element of the old list ends up: in the moved block, or among
      the unmoved elements before or after the destination. */
  datatype Part = Before | Moving | After

  function PartOf(i: int, source: set<int>, destination: int): Part
  {
    if i in source then Moving else if i < destination then Before else After
  }

  /** The elements of `xs` whose offsets fall in `part`, in their original order. */
  function Keep<T>(xs: seq<T>, source: set<int>, destination: int, part: Part): (r: seq<T>)
    ensures |r| <= |xs|
  {
    if xs == [] then []
    else
      var n := |xs| - 1;
      Keep(xs[..n], source, destination, part)
        + (if PartOf(n, source, destination) == part then [xs[n]] else [])
  }

  /** The offsets `move(fromOffsets:toOffset:)` accepts: every source offset
      names an element and the destination lies between 0 and the count. */
  predicate ValidMove<T>(xs: seq<T>, source: set<int>, destination: int)
  {
    (forall i :: i in source ==> 0 <= i < |xs|) && 0 <= destination <= |xs|
  }

  /** `move(fromOffsets: source, toOffset: destination)`: the elements at the
      source offsets, in their order, are placed just before the element that
      was at the destination offset; all other elements keep their order. The
      result is a permutation of the input. */
  function Moved<T>(xs: seq<T>, source: set<int>, destination: int): (r: seq<T>)
    ensures multiset(r) == multiset(xs)
    ensures |r| == |xs|
  {
    KeepPartition(xs, source, destination);
    var r := Keep(xs, source, destination, Before)
      + Keep(xs, source, destination, Moving)
      + Keep(xs, source, destination, After);
    assert |r| == |multiset(r)| == |multiset(xs)| == |xs|;
    r
  }

  lemma {:induction false} KeepPartition<T>(xs: seq<T>, source: set<int>, destination: int)
    ensures multiset(Keep(xs, source, destination, Before))
          + multiset(Keep(xs, source, destination, Moving))
          + multiset(Keep(xs, source, destination, After))
         == multiset(xs)
  {
    if xs != [] {
      var n := |xs| - 1;
      var pre, x, s, d := xs[..n], xs[n], source, destination;
      KeepPartition(pre, s, d);
      KeepSnoc(xs, s, d, Before);
      KeepSnoc(xs, s, d, Moving);
      KeepSnoc(xs, s, d, After);
      MultisetSnoc(xs);
    }
  }

  lemma MultisetSnoc<T>(xs: seq<T>)
    requires xs != []
    ensures multiset(xs) == multiset(xs[..|xs| - 1]) + multiset{xs[|xs| - 1]}
  {
    assert xs == xs[..|xs| - 1] + [xs[|xs| - 1]];
  }

  lemma KeepSnoc<T>(xs: seq<T>, source: set<int>, destination: int, part: Part)
    requires xs != []
    ensures multiset(Keep(xs, source, destination, part))
         == multiset(Keep(xs[..|xs| - 1], source, destination, part))
          + (if PartOf(|xs| - 1, source, destination) == part then multiset{xs[|xs| - 1]} else multiset{})
  {
  }

  /** A run of offsets that all fall in `part` is kept as it is. */
  lemma {:induction false} KeepTakes<T>(xs: seq<T>, source: set<int>, destination: int, part: Part, m: nat, n: nat)
    requires m <= n <= |xs|
    requires forall i :: m <= i < n ==> PartOf(i, source, destination) == part
    ensures Keep(xs[..n], source, destination, part) == Keep(xs[..m], source, destination, part) + xs[m..n]
  {
    if m < n {
      KeepTakes(xs, source, destination, part, m, n - 1);
      assert xs[..n][..n - 1] == xs[..n - 1];
      assert xs[m..n] == xs[m..n - 1] + [xs[n - 1]];
    }
  }

  /** A run of offsets none of which falls in `part` contributes nothing. */
  lemma {:induction false} KeepSkips<T>(xs: seq<T>, source: set<int>, destination: int, part: Part, m: nat, n: nat)
    requires m <= n <= |xs|
    requires forall i :: m <= i < n ==> PartOf(i, source, destination) != part
    ensures Keep(xs[..n], source, destination, part) == Keep(xs[..m], source, destination, part)
  {
    if m < n {
      KeepSkips(xs, source, destination, part, m, n - 1);
      assert xs[..n][..n - 1] == xs[..n - 1];
    }
  }

  /** How many of the offsets below `i` fall in `part`: the place the element
      at offset `i` takes among the elements of its part. */
  function Rank(i: nat, source: set<int>, destination: int, part: Part): (r: nat)
    ensures r <= i
  {
    if i == 0 then 0
    else Rank(i - 1, source, destination, part) + (if PartOf(i - 1, source, destination) == part then 1 else 0)
  }

  /** Within a part, a later offset has a larger rank. */
  lemma {:induction false} RankIncreases(i: nat, j: nat, source: set<int>, destination: int, part: Part)
    requires i < j && PartOf(i, source, destination) == part
    ensures Rank(i, source, destination, part) < Rank(j, source, destination, part)
  {
    if j > i + 1 {
      RankIncreases(i, j - 1, source, destination, part);
    }
  }

  /** A part holds one element per offset that falls in it. */
  lemma {:induction false} KeepLength<T>(xs: seq<T>, source: set<int>, destination: int, part: Part)
    ensures |Keep(xs, source, destination, part)| == Rank(|xs|, source, destination, part)
  {
    if xs != [] {
      KeepLength(xs[..|xs| - 1], source, destination, part);
    }
  }

  /** A part keeps its elements in their old order: the element at offset `i`
      sits at its rank. */
  lemma {:induction false} KeepAt<T>(xs: seq<T>, source: set<int>, destination: int, part: Part, i: nat)
    requires i < |xs| && PartOf(i, source, destination) == part
    ensures Rank(i, source, destination, part) < |Keep(xs, source, destination, part)|
    ensures Keep(xs, source, destination, part)[Rank(i, source, destination, part)] == xs[i]
  {
    var n := |xs| - 1;
    var pre := xs[..n];
    KeepLength(pre, source, destination, part);
    if i < n {
      KeepAt(pre, source, destination, part, i);
    }
  }

  /** The offset at which `move(fromOffsets:toOffset:)` places the element from
      offset `i` of a list of `len` elements: its rank within the unmoved
      elements before the destination; or, after all of those, its rank within
      the moved elements; or, after both blocks, its rank within the unmoved
      elements from the destination on. */
  function NewOffset(i: nat, len: nat, source: set<int>, destination: int): nat
  {
    var before := Rank(len, source, destination, Before);
    var moving := Rank(len, source, destination, Moving);
    match PartOf(i, source, destination)
    case Before => Rank(i, source, destination, Before)
    case Moving => before + Rank(i, source, destination, Moving)
    case After => before + moving + Rank(i, source, destination, After)
  }

  /** Every element of the old list is found in the moved list at its new
      offset. */
  lemma MovedPlaces<T>(xs: seq<T>, source: set<int>, destination: int, i: nat)
    requires i < |xs|
    ensures NewOffset(i, |xs|, source, destination) < |xs|
    ensures Moved(xs, source, destination)[NewOffset(i, |xs|, source, destination)] == xs[i]
  {
    var s, d := source, destination;
    KeepLength(xs, s, d, Before);
    KeepLength(xs, s, d, Moving);
    KeepLength(xs, s, d, After);
    assert Moved(xs, s, d) == Keep(xs, s, d, Before) + Keep(xs, s, d, Moving) + Keep(xs, s, d, After);
    KeepAt(xs, s, d, PartOf(i, s, d), i);
  }

  /** The moved list orders the old elements as the source promises: the
      unmoved elements before the destination, then the moved ones, then the
      unmoved ones from the destination on, each block in its old order. So
      distinct offsets land at distinct new offsets. */
  lemma MovedOrder(len: nat, source: set<int>, destination: int, i: nat, j: nat)
    requires i < len && j < len
    ensures i < j && PartOf(i, source, destination) == PartOf(j, source, destination) ==>
              NewOffset(i, len, source, destination) < NewOffset(j, len, source, destination)
    ensures PartOf(i, source, destination) == Before && PartOf(j, source, destination) != Before ==>
              NewOffset(i, len, source, destination) < NewOffset(j, len, source, destination)
    ensures PartOf(i, source, destination) == Moving && PartOf(j, source, destination) == After ==>
              NewOffset(i, len, source, destination) < NewOffset(j, len, source, destination)
    ensures i != j ==> NewOffset(i, len, source, destination) != NewOffset(j, len, source, destination)
  {
    var s, d := source, destination;
    RankIncreases(i, len, s, d, PartOf(i, s, d));
    RankIncreases(j, len, s, d, PartOf(j, s, d));
    if i < j && PartOf(i, s, d) == PartOf(j, s, d) {
      RankIncreases(i, j, s, d, PartOf(i, s, d));
    }
    if j < i && PartOf(i, s, d) == PartOf(j, s, d) {
      RankIncreases(j, i, s, d, PartOf(i, s, d));
    }
  }

  /** Moving no offsets leaves the list as it is. */
  lemma MovedNothing<T>(xs: seq<T>, destination: int)
    requires 0 <= destination <= |xs|
    ensures Moved(xs, {}, destination) == xs
  {
    var s: set<int> := {};
    var d, len := destination, |xs|;
    assert xs[..len] == xs && xs[..0] == [];
    assert Keep(xs, s, d, Before) == xs[..d] by {
      KeepTakes(xs, s, d, Before, 0, d);
      KeepSkips(xs, s, d, Before, d, len);
    }
    assert Keep(xs, s, d, Moving) == [] by {
      KeepSkips(xs, s, d, Moving, 0, len);
    }
    assert Keep(xs, s, d, After) == xs[d..] by {
      KeepSkips(xs, s, d, After, 0, d);
      KeepTakes(xs, s, d, After, d, len);
    }
    assert xs == xs[..d] + xs[d..];
  }

  /** Removing the element at offset `i`. */
  function RemoveAt<T>(xs: seq<T>, i: nat): (r: seq<T>)
    requires i < |xs|
    ensures |r| == |xs| - 1
  {
    xs[..i] + xs[i + 1..]
  }

  /** Inserting `x` so that it lands at offset `j`. */
  function InsertAt<T>(xs: seq<T>, j: nat, x: T): (r: seq<T>)
    requires j <= |xs|
    ensures |r| == |xs| + 1 && r[j] == x
  {
    xs[..j] + [x] + xs[j..]
  }

  /** Moving one row, as a drag in the list does, is removing it and
      inserting it again just before the element that was at the destination
      (one place earlier when the row came from above it). */
  lemma MoveOneIsRemoveThenInsert<T>(xs: seq<T>, i: nat, destination: nat)
    requires i < |xs| && destination <= |xs|
    ensures Moved(xs, {i}, destination)
         == InsertAt(RemoveAt(xs, i), if i < destination then destination - 1 else destination, xs[i])
  {
    var d := destination;
    MoveOneBefore(xs, i, d);
    MoveOneMoving(xs, i, d);
    MoveOneAfter(xs, i, d);
    var ys := RemoveAt(xs, i);
    if i < d {
      assert ys[..d - 1] == xs[..i] + xs[i + 1..d];
      assert ys[d - 1..] == xs[d..];
    } else {
      assert ys[..d] == xs[..d];
      assert ys[d..] == xs[d..i] + xs[i + 1..];
    }
  }

  lemma MoveOneBefore<T>(xs: seq<T>, i: nat, d: nat)
    requires i < |xs| && d <= |xs|
    ensures Keep(xs, {i}, d, Before) == if i < d then xs[..i] + xs[i + 1..d] else xs[..d]
  {
    var s, len := {i}, |xs|;
    assert xs[..len] == xs;
    if i < d {
      assert Keep(xs[..i + 1], s, d, Before) == xs[..i] by {
        assert xs[..0] == [];
        KeepTakes(xs, s, d, Before, 0, i);
        KeepSkips(xs, s, d, Before, i, i + 1);
      }
      KeepTakes(xs, s, d, Before, i + 1, d);
      KeepSkips(xs, s, d, Before, d, len);
    } else {
      assert xs[..0] == [];
      KeepTakes(xs, s, d, Before, 0, d);
      KeepSkips(xs, s, d, Before, d, len);
    }
  }

  lemma MoveOneMoving<T>(xs: seq<T>, i: nat, d: nat)
    requires i < |xs| && d <= |xs|
    ensures Keep(xs, {i}, d, Moving) == [xs[i]]
  {
    var s, len := {i}, |xs|;
    assert xs[..len] == xs && xs[..0] == [];
    KeepSkips(xs, s, d, Moving, 0, i);
    KeepTakes(xs, s, d, Moving, i, i + 1);
    KeepSkips(xs, s, d, Moving, i + 1, len);
  }

  lemma MoveOneAfter<T>(xs: seq<T>, i: nat, d: nat)
    requires i < |xs| && d <= |xs|
    ensures Keep(xs, {i}, d, After) == if i < d then xs[d..] else xs[d..i] + xs[i + 1..]
  {
    var s, len := {i}, |xs|;
    assert xs[..len] == xs;
    assert Keep(xs[..d], s, d, After) == [] by {
      assert xs[..0] == [];
      KeepSkips(xs, s, d, After, 0, d);
    }
    if i < d {
      KeepTakes(xs, s, d, After, d, len);
      assert xs[d..len] == xs[d..];
    } else {
      MoveOneAfterAbove(xs, i, d);
    }
  }

  /** The unmoved rows after the destination when the moved row lies at or
      after it: the row is skipped. */
  lemma MoveOneAfterAbove<T>(xs: seq<T>, i: nat, d: nat)
    requires d <= i < |xs| && Keep(xs[..d], {i}, d, After) == []
    ensures Keep(xs[..|xs|], {i}, d, After) == xs[d..i] + xs[i + 1..]
  {
    var s, len := {i}, |xs|;
    assert Keep(xs[..i + 1], s, d, After) == xs[d..i] by {
      KeepTakes(xs, s, d, After, d, i);
      KeepSkips(xs, s, d, After, i, i + 1);
    }
    KeepTakes(xs, s, d, After, i + 1, len);
    assert xs[i + 1..len] == xs[i + 1..];
  }

  /** Dropping a row where it already is (just before itself or just before
      its successor) changes nothing. */
  lemma MoveOneInPlace<T>(xs: seq<T>, i: nat, destination: nat)
    requires i < |xs| && (destination == i || destination == i + 1)
    ensures Moved(xs, {i}, destination) == xs
  {
    MoveOneIsRemoveThenInsert(xs, i, destination);
    var ys := RemoveAt(xs, i);
    assert ys[..i] == xs[..i] && ys[i..] == xs[i + 1..];
    assert InsertAt(ys, i, xs[i]) == xs[..i] + [xs[i]] + xs[i + 1..];
    assert xs == xs[..i] + [xs[i]] + xs[i + 1..];
  }

  /** Reordering keeps the same records, the same ids, and distinct ids distinct. */
  lemma MovedKeepsIds(xs: seq<Photos>, source: set<int>, destination: int)
    ensures Ids(Moved(xs, source, destination)) == Ids(xs)
    ensures DistinctIds(xs) ==> DistinctIds(Moved(xs, source, destination))
  {
    PermutationKeepsIds(xs, Moved(xs, source, destination));
  }
}
