/** Byte sequences cut into messages, and the correspondence between a position of the
    concatenated stream and a (message, offset) pair. */
module ByteStream {

  type Byte = b: int | 0 <= b < 256

  const NEWLINE: Byte := 10

  /** All parts laid end to end. */
  function Flatten<T>(parts: seq<seq<T>>): (s: seq<T>) {
    if |parts| == 0 then [] else Flatten(parts[..|parts| - 1]) + parts[|parts| - 1]
  }

  function Sizes<T>(parts: seq<seq<T>>): (sizes: seq<nat>)
    ensures |sizes| == |parts|
    ensures forall i :: 0 <= i < |parts| ==> sizes[i] == |parts[i]|
  {
    seq(|parts|, i requires 0 <= i < |parts| => |parts[i]|)
  }

  /** Number of bytes before part `c`. */
  function Prefix(sizes: seq<nat>, c: nat): nat
    requires c <= |sizes|
  {
    if c == 0 then 0 else Prefix(sizes, c - 1) + sizes[c - 1]
  }

  function Total(sizes: seq<nat>): nat {
    Prefix(sizes, |sizes|)
  }

  /** Byte `o` of part `c` is the byte at position `p` of the stream. */
  predicate Holds(sizes: seq<nat>, p: int, c: nat, o: nat) {
    c < |sizes| && o < sizes[c] && p == Prefix(sizes, c) + o
  }

  lemma FlattenSnoc<T>(xs: seq<seq<T>>, y: seq<T>)
    ensures Flatten(xs + [y]) == Flatten(xs) + y
  {
  }

  lemma {:induction false} FlattenAppend<T>(xs: seq<seq<T>>, ys: seq<seq<T>>)
    ensures Flatten(xs + ys) == Flatten(xs) + Flatten(ys)
    decreases |ys|
  {
    if |ys| == 0 {
      assert xs + ys == xs;
    } else {
      var n := |ys| - 1;
      assert xs + ys == (xs + ys[..n]) + [ys[n]];
      FlattenSnoc(xs + ys[..n], ys[n]);
      FlattenAppend(xs, ys[..n]);
    }
  }

  /** The stream starts with the first part. */
  lemma FlattenCons<T>(x: seq<T>, ys: seq<seq<T>>)
    ensures Flatten([x] + ys) == x + Flatten(ys)
  {
    FlattenAppend([x], ys);
    assert [x][..0] == [];
  }

  lemma {:induction false} PrefixMonotone(sizes: seq<nat>, c: nat, d: nat)
    requires c <= d <= |sizes|
    ensures Prefix(sizes, c) <= Prefix(sizes, d)
  {
    if c < d { PrefixMonotone(sizes, c, d - 1); }
  }

  /** A prefix sum only looks at the sizes before it. */
  lemma {:induction false} PrefixLocal(a: seq<nat>, b: seq<nat>, c: nat)
    requires c <= |a| && c <= |b|
    requires forall i :: 0 <= i < c ==> a[i] == b[i]
    ensures Prefix(a, c) == Prefix(b, c)
  {
    if c > 0 { PrefixLocal(a, b, c - 1); }
  }

  /** The part boundaries of the stream are the prefix sums of the sizes. */
  lemma {:induction false} FlattenPrefix<T>(parts: seq<seq<T>>, c: nat)
    requires c <= |parts|
    ensures |Flatten(parts[..c])| == Prefix(Sizes(parts), c)
  {
    if c > 0 {
      FlattenPrefix(parts, c - 1);
      assert parts[..c] == parts[..c - 1] + [parts[c - 1]];
      FlattenSnoc(parts[..c - 1], parts[c - 1]);
    } else {
      assert parts[..c] == [];
    }
  }

  lemma FlattenTotal<T>(parts: seq<seq<T>>)
    ensures |Flatten(parts)| == Total(Sizes(parts))
  {
    assert parts[..|parts|] == parts;
    FlattenPrefix(parts, |parts|);
  }

  /** The stream splits around any of its parts. */
  lemma FlattenAround<T>(parts: seq<seq<T>>, c: nat)
    requires c < |parts|
    ensures Flatten(parts) == Flatten(parts[..c]) + parts[c] + Flatten(parts[c + 1..])
  {
    var upTo, after := parts[..c + 1], parts[c + 1..];
    FlattenAppend(upTo, after);
    assert upTo + after == parts;
    assert upTo[..c] == parts[..c];
  }

  /** Position to pair, first half of the bijection: a pair names the byte it points at. */
  lemma HoldsByte<T>(parts: seq<seq<T>>, p: int, c: nat, o: nat)
    requires Holds(Sizes(parts), p, c, o)
    ensures 0 <= p < |Flatten(parts)|
    ensures Flatten(parts)[p] == parts[c][o]
  {
    FlattenAround(parts, c);
    FlattenPrefix(parts, c);
  }

  /** Every position below the total is named by some pair, and no other position is. */
  lemma {:induction false} HoldsExists(sizes: seq<nat>, p: nat)
    ensures p < Total(sizes) <==> exists c: nat, o: nat :: Holds(sizes, p, c, o)
  {
    if p < Total(sizes) {
      var c: nat := |sizes|;
      while Prefix(sizes, c) > p
        invariant c <= |sizes|
        invariant c < |sizes| ==> p < Prefix(sizes, c + 1)
        decreases c
      {
        c := c - 1;
      }
      assert Holds(sizes, p, c, p - Prefix(sizes, c));
    }
    forall c: nat, o: nat | Holds(sizes, p, c, o)
      ensures p < Total(sizes)
    {
      PrefixMonotone(sizes, c + 1, |sizes|);
    }
  }

  /** Two pairs naming one position are the same pair. */
  lemma HoldsUnique(sizes: seq<nat>, p: int, c: nat, o: nat, c': nat, o': nat)
    requires Holds(sizes, p, c, o) && Holds(sizes, p, c', o')
    ensures c == c' && o == o'
  {
    if c < c' {
      PrefixMonotone(sizes, c + 1, c');
    } else if c' < c {
      PrefixMonotone(sizes, c' + 1, c);
    }
  }

  /** End of the message that holds position `p`. */
  function MessageEnd<T>(parts: seq<seq<T>>, p: nat): (e: nat)
    requires p < |Flatten(parts)|
    ensures p < e <= |Flatten(parts)|
  {
    var before := parts[..|parts| - 1];
    if p < |Flatten(before)| then MessageEnd(before, p) else |Flatten(parts)|
  }

  /** The message end is the boundary after the part that holds `p`. */
  lemma {:induction false} MessageEndIsBoundary<T>(parts: seq<seq<T>>, p: nat, c: nat, o: nat)
    requires Holds(Sizes(parts), p, c, o)
    ensures p < |Flatten(parts)|
    ensures MessageEnd(parts, p) == Prefix(Sizes(parts), c + 1)
    decreases |parts|
  {
    HoldsByte(parts, p, c, o);
    var n := |parts| - 1;
    var sizes, before := Sizes(parts), parts[..n];
    FlattenPrefix(parts, n);
    FlattenTotal(parts);
    if c < n {
      PrefixLocal(sizes, Sizes(before), c + 1);
      PrefixMonotone(sizes, c + 1, n);
      MessageEndIsBoundary(before, p, c, o);
    }
  }

  /** A slice that stays within one part is a slice of that part. */
  lemma FlattenSlice<T>(parts: seq<seq<T>>, p: nat, c: nat, o: nat, n: nat)
    requires Holds(Sizes(parts), p, c, o) && o + n <= |parts[c]|
    ensures p + n <= |Flatten(parts)|
    ensures Flatten(parts)[p..p + n] == parts[c][o..o + n]
  {
    FlattenAround(parts, c);
    FlattenPrefix(parts, c);
  }
}
