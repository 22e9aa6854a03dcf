/** Framing of the fixed-width appearance records: a list of records laid
    end to end, and a buffer cut back into records. Nothing here looks at
    what a record holds. */
module Records {

  /** Bytes per appearance record: two ints and two bytes. */
  const WriteSize: nat := 2 * 4 + 2

  /** The records of `xs` laid end to end, in order. */
  function Flatten<T>(xs: seq<seq<T>>): (r: seq<T>)
    decreases |xs|
  {
    if xs == [] then [] else Flatten(xs[..|xs| - 1]) + xs[|xs| - 1]
  }

  /** The first `count` records of width `WriteSize` at the front of `b`. */
  function Chunks<T>(b: seq<T>, count: nat): seq<seq<T>>
    requires WriteSize * count <= |b|
  {
    seq(count, i requires 0 <= i < count => b[WriteSize * i..WriteSize * i + WriteSize])
  }

  /** Every record of `xs` is `WriteSize` long. */
  predicate AllOfWidth<T>(xs: seq<seq<T>>)
  {
    forall i :: 0 <= i < |xs| ==> |xs[i]| == WriteSize
  }

  /** Appending one record appends its elements. */
  lemma FlattenSnoc<T>(xs: seq<seq<T>>, x: seq<T>)
    ensures Flatten(xs + [x]) == Flatten(xs) + x
  {
    assert (xs + [x])[..|xs|] == xs;
  }

  /** Appending one record to a buffer holding a prefix and some records
      gives the prefix and the longer list of records. */
  lemma AppendRecord<T>(prefix: seq<T>, xs: seq<seq<T>>, x: seq<T>)
    ensures prefix + Flatten(xs) + x == prefix + Flatten(xs + [x])
  {
    FlattenSnoc(xs, x);
  }

  /** A slice of the part after a prefix, seen in the whole buffer. */
  lemma SliceAfter<T>(prefix: seq<T>, rest: seq<T>, lo: nat, hi: nat)
    requires lo <= hi <= |rest|
    ensures (prefix + rest)[|prefix| + lo..|prefix| + hi] == rest[lo..hi]
  {
  }

  /** Records of width `WriteSize` take `WriteSize` elements each. */
  lemma {:induction false} FlattenLength<T>(xs: seq<seq<T>>)
    requires AllOfWidth(xs)
    ensures |Flatten(xs)| == WriteSize * |xs|
    decreases |xs|
  {
    if xs != [] {
      FlattenLength(xs[..|xs| - 1]);
    }
  }

  /** Record i of a flattened list of width-`WriteSize` records occupies elements
      WriteSize * i to WriteSize * i + WriteSize - 1. */
  lemma {:induction false} FlattenAt<T>(xs: seq<seq<T>>, i: nat)
    requires AllOfWidth(xs) && i < |xs|
    ensures |Flatten(xs)| == WriteSize * |xs|
    ensures Flatten(xs)[WriteSize * i..WriteSize * i + WriteSize] == xs[i]
    decreases |xs|
  {
    var init := xs[..|xs| - 1];
    FlattenLength(xs);
    FlattenLength(init);
    if i < |xs| - 1 {
      FlattenAt(init, i);
    }
  }

  /** Cutting a flattened list of width-`WriteSize` records gives the records back. */
  lemma ChunksOfFlatten<T>(xs: seq<seq<T>>)
    requires AllOfWidth(xs)
    ensures |Flatten(xs)| == WriteSize * |xs|
    ensures Chunks(Flatten(xs), |xs|) == xs
  {
    FlattenLength(xs);
    forall i | 0 <= i < |xs|
      ensures Chunks(Flatten(xs), |xs|)[i] == xs[i]
    {
      FlattenAt(xs, i);
    }
  }

  /** Flattening the records cut from `b` gives their `WriteSize * count` elements
      back. */
  lemma {:induction false} FlattenOfChunks<T>(b: seq<T>, count: nat)
    requires WriteSize * count <= |b|
    ensures Flatten(Chunks(b, count)) == b[..WriteSize * count]
    decreases count
  {
    if count > 0 {
      var cs := Chunks(b, count);
      assert cs[..count - 1] == Chunks(b, count - 1);
      FlattenOfChunks(b, count - 1);
      assert b[..WriteSize * count] == b[..WriteSize * (count - 1)] + b[WriteSize * (count - 1)..WriteSize * count];
    }
  }

  /** Cutting `count` records looks only at the first `WriteSize * count` elements. */
  lemma ChunksPrefix<T>(b: seq<T>, c: seq<T>, count: nat)
    requires WriteSize * count <= |b| && WriteSize * count <= |c|
    requires b[..WriteSize * count] == c[..WriteSize * count]
    ensures Chunks(b, count) == Chunks(c, count)
  {
    forall i | 0 <= i < count
      ensures b[WriteSize * i..WriteSize * i + WriteSize] == c[WriteSize * i..WriteSize * i + WriteSize]
    {
      assert b[WriteSize * i..WriteSize * i + WriteSize] == b[..WriteSize * count][WriteSize * i..WriteSize * i + WriteSize];
      assert c[WriteSize * i..WriteSize * i + WriteSize] == c[..WriteSize * count][WriteSize * i..WriteSize * i + WriteSize];
    }
  }

  /** Cutting one more record appends it. */
  lemma ChunksSnoc<T>(b: seq<T>, count: nat)
    requires WriteSize * (count + 1) <= |b|
    ensures Chunks(b, count + 1) == Chunks(b, count) + [b[WriteSize * count..WriteSize * count + WriteSize]]
  {
  }
}
