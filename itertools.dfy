/**
 A single-pass iterator over the Cartesian product of two finite sequences, in
 row-major order: the first sequence is the outer dimension and the second is
 replayed, from a pristine copy, once for every outer item.
 */
module Itertools {
  import opened Wrappers

  /** The pairs `(x, y)` for every `y` of `ys`, in order. */
  function Row<A, B>(x: A, ys: seq<B>): (r: seq<(A, B)>)
  {
    seq(|ys|, l requires 0 <= l < |ys| => (x, ys[l]))
  }

  /** The row-major enumeration of all pairs of `xs` and `ys`. */
  function Product<A, B>(xs: seq<A>, ys: seq<B>): (r: seq<(A, B)>)
  {
    if xs == [] then [] else Row(xs[0], ys) + Product(xs[1..], ys)
  }

  /** `s` is what remains of `t` after some of its items were taken from the front. */
  ghost predicate IsSuffix<B>(s: seq<B>, t: seq<B>)
  {
    |s| <= |t| && s == t[|t| - |s|..]
  }

  /** The item `next` takes from a sequence-backed iterator, if any. */
  function Head<A>(s: seq<A>): (h: Option<A>)
  {
    if s == [] then None else Some(s[0])
  }

  /** What a sequence-backed iterator holds after `next`. */
  function Tail<A>(s: seq<A>): (t: seq<A>)
  {
    if s == [] then [] else s[1..]
  }

  /** The product has one pair per combination. */
  lemma {:induction false} ProductLength<A, B>(xs: seq<A>, ys: seq<B>)
    ensures |Product(xs, ys)| == |xs| * |ys|
  {
    if xs != [] {
      ProductLength(xs[1..], ys);
      assert |xs| * |ys| == |ys| + (|xs| - 1) * |ys|;
    }
  }

  /** Position `k * |ys| + l` of the product holds `(xs[k], ys[l])`: the order is row-major. */
  lemma ProductAt<A, B>(xs: seq<A>, ys: seq<B>, k: nat, l: nat)
    requires k < |xs| && l < |ys|
    ensures k * |ys| + l < |Product(xs, ys)|
    ensures Product(xs, ys)[k * |ys| + l] == (xs[k], ys[l])
  {
    RowsBefore(xs, ys, k, l);
    RowOffsetIsProduct(k, |ys|);
  }

  /** The number of pairs in `k` full rows of length `n`. */
  function RowOffset(k: nat, n: nat): (p: nat)
  {
    if k == 0 then 0 else n + RowOffset(k - 1, n)
  }

  /** `k` rows of `n` pairs hold `k * n` pairs. */
  lemma {:induction false} RowOffsetIsProduct(k: nat, n: nat)
    ensures RowOffset(k, n) == k * n
  {
    if k > 0 {
      RowOffsetIsProduct(k - 1, n);
    }
  }

  /** `RowOffset(k, |ys|) + l` indexes `(xs[k], ys[l])`: `k` full rows come before it. */
  lemma {:induction false} RowsBefore<A, B>(xs: seq<A>, ys: seq<B>, k: nat, l: nat)
    requires k < |xs| && l < |ys|
    ensures RowOffset(k, |ys|) + l < |Product(xs, ys)|
    ensures Product(xs, ys)[RowOffset(k, |ys|) + l] == (xs[k], ys[l])
  {
    var row, rest := Row(xs[0], ys), Product(xs[1..], ys);
    if k == 0 {
      ConcatAt(row, rest, l);
    } else {
      RowsBefore(xs[1..], ys, k - 1, l);
      var q := RowOffset(k - 1, |ys|) + l;
      assert RowOffset(k, |ys|) + l == |row| + q;
      ConcatAt(row, rest, |row| + q);
      assert xs[1..][k - 1] == xs[k];
    }
  }

  /** Indexing into a concatenation. */
  lemma ConcatAt<T>(a: seq<T>, b: seq<T>, p: nat)
    requires p < |a| + |b|
    ensures (a + b)[p] == if p < |a| then a[p] else b[p - |a|]
  {
  }

  /** With an empty inner sequence the product is empty, whatever the outer one holds. */
  lemma {:induction false} ProductEmptyInner<A, B>(xs: seq<A>)
    ensures Product<A, B>(xs, []) == []
  {
    if xs != [] {
      ProductEmptyInner<A, B>(xs[1..]);
    }
  }

  /** With an empty outer sequence the product is empty. */
  lemma ProductEmptyOuter<A, B>(ys: seq<B>)
    ensures Product<A, B>([], ys) == []
  {
  }

  /**
   The pairs still to come from an iterator state: the rest of the current row,
   then a full row for every outer item not yet reached.
   */
  ghost function Pending<A, B>(saved: Option<A>, first: seq<A>, second: seq<B>, clone: seq<B>): (r: seq<(A, B)>)
  {
    match saved
    case None => []
    case Some(x) => Row(x, second) + Product(first, clone)
  }

  /** Concatenation is associative. */
  lemma SeqAssoc<T>(a: seq<T>, b: seq<T>, c: seq<T>)
    ensures (a + b) + c == a + (b + c)
  {
  }

  /** Taking the next inner item yields the head of the pending pairs. */
  lemma PendingInnerStep<A, B>(x: A, first: seq<A>, second: seq<B>, clone: seq<B>)
    requires second != []
    ensures Pending(Some(x), first, second, clone)
         == [(x, second[0])] + Pending(Some(x), first, second[1..], clone)
  {
  }

  /** Restarting a non-empty inner sequence and advancing the outer one yields the head of the pending pairs. */
  lemma PendingRestartStep<A, B>(saved: Option<A>, first: seq<A>, clone: seq<B>)
    requires clone != []
    requires saved.None? ==> first == []
    ensures first == [] ==> Pending(saved, first, [], clone) == []
    ensures first != [] ==>
      Pending(saved, first, [], clone) == [(first[0], clone[0])] + Pending(Some(first[0]), first[1..], clone[1..], clone)
  {
    if first != [] {
      var x := first[0];
      var rest := Product(first[1..], clone);
      assert Row(x, clone) == [(x, clone[0])] + Row(x, clone[1..]);
      SeqAssoc([(x, clone[0])], Row(x, clone[1..]), rest);
    }
  }

  class CartesianProduct<A, B> {
    /** What remains of the outer sequence. */
    var first: seq<A>
    /** The current outer item; `None` once the outer sequence ran out. */
    var savedFirst: Option<A>
    /** What remains of the inner sequence for the current outer item. */
    var second: seq<B>
    /** The inner sequence as given, replayed for each outer item. */
    var secondClone: seq<B>

    ghost predicate Valid()
      reads this
    {
      && IsSuffix(second, secondClone)
      && (savedFirst.None? ==> first == [])
    }

    /** The pairs that the calls to `Next` still to come will yield, in order. */
    ghost function Remaining(): (r: seq<(A, B)>)
      reads this
    {
      Pending(savedFirst, first, second, secondClone)
    }

    /** Starts the product of `i` and `j`: takes the first outer item and keeps a copy of `j`. */
    constructor (i: seq<A>, j: seq<B>)
      ensures savedFirst == Head(i) && first == Tail(i)
      ensures second == j && secondClone == j
      ensures Valid()
      ensures Remaining() == Product(i, j)
    {
      savedFirst := Head(i);
      first := Tail(i);
      secondClone := j;
      second := j;
    }

    /**
     Advances the inner sequence; once it is exhausted, restarts it from the copy
     and advances the outer sequence. Yields a pair only while there is a current
     outer item.
     */
    method Next() returns (r: Option<(A, B)>)
      requires Valid()
      modifies this
      ensures Valid()
      ensures secondClone == old(secondClone)
      // The inner sequence still has an item: take it, keep the outer item.
      ensures old(second) != [] ==>
        && second == old(second)[1..] && first == old(first) && savedFirst == old(savedFirst)
        && r == (if savedFirst.Some? then Some((savedFirst.value, old(second)[0])) else None)
      // Exhausted, and the copy is empty too: nothing is ever yielded.
      ensures old(second) == [] && secondClone == [] ==>
        && second == [] && first == old(first) && savedFirst == old(savedFirst)
        && r == None
      // Exhausted: restart from the copy, take its first item, advance the outer sequence.
      ensures old(second) == [] && secondClone != [] ==>
        && second == secondClone[1..] && first == Tail(old(first)) && savedFirst == Head(old(first))
        && r == (if savedFirst.Some? then Some((savedFirst.value, secondClone[0])) else None)
      // In terms of the enumeration: the head of what remained is yielded and removed.
      ensures r == Head(old(Remaining()))
      ensures Remaining() == Tail(old(Remaining()))
    {
      var secondItem: B;
      if second != [] {
        if savedFirst.Some? {
          PendingInnerStep(savedFirst.value, first, second, secondClone);
        }
        secondItem := second[0];
        second := second[1..];
      } else {
        second := secondClone;
        if second == [] {
          ProductEmptyInner<A, B>(first);
          return None;
        }
        PendingRestartStep(savedFirst, first, secondClone);
        secondItem := second[0];
        second := second[1..];
        savedFirst := Head(first);
        first := Tail(first);
      }
      match savedFirst
      case Some(x) =>
        r := Some((x, secondItem));
      case None =>
        r := None;
    }
  }

  /** Runs the iterator to exhaustion, collecting what it yields, as a `for` loop over it does. */
  method Collect<A, B>(i: seq<A>, j: seq<B>) returns (out: seq<(A, B)>)
    ensures out == Product(i, j)
  {
    var it := new CartesianProduct(i, j);
    ghost var all := it.Remaining();
    out := [];
    var done := false;
    while !done
      invariant it.Valid()
      invariant out + it.Remaining() == all
      invariant done ==> it.Remaining() == []
      decreases |it.Remaining()|, !done
    {
      ghost var rest := it.Remaining();
      var r := it.Next();
      match r
      case None =>
        done := true;
      case Some(p) =>
        Consume(out, p, rest, all);
        out := out + [p];
    }
    assert out + [] == out;
  }

  /** Moving the head of the pending pairs to the output keeps output plus pending intact. */
  lemma Consume<T>(out: seq<T>, p: T, rest: seq<T>, all: seq<T>)
    requires out + rest == all
    requires rest != [] && rest[0] == p
    ensures (out + [p]) + rest[1..] == all
  {
  }

  /** The first call to `Next` yields the first pair, or nothing when either sequence is empty. */
  method FirstPair<A, B>(i: seq<A>, j: seq<B>) returns (r: Option<(A, B)>)
    ensures r == (if i == [] || j == [] then None else Some((i[0], j[0])))
  {
    var it := new CartesianProduct(i, j);
    if j == [] {
      ProductEmptyInner<A, B>(i);
    } else if i != [] {
      ProductAt(i, j, 0, 0);
    }
    r := it.Next();
  }
}
