/** Options and the sequence operations that several models share: concatenation of chunks,
    search for a separator, and splitting and joining on it. */
module Sequences {

  datatype Option<+T> = None | Some(value: T)

  datatype Result<+T, +E> = Ok(value: T) | Err(error: E)

  /** All chunks, one after the other. */
  function Flatten<T>(chunks: seq<seq<T>>): seq<T> {
    if chunks == [] then [] else chunks[0] + Flatten(chunks[1..])
  }

  lemma {:induction false} FlattenAppend<T>(a: seq<seq<T>>, b: seq<seq<T>>)
    ensures Flatten(a + b) == Flatten(a) + Flatten(b)
  {
    if a == [] {
      assert a + b == b;
    } else {
      calc {
        Flatten(a + b);
        { assert (a + b)[1..] == a[1..] + b; }
        a[0] + Flatten(a[1..] + b);
        { FlattenAppend(a[1..], b); }
        a[0] + (Flatten(a[1..]) + Flatten(b));
        (a[0] + Flatten(a[1..])) + Flatten(b);
      }
    }
  }

  lemma FlattenOne<T>(a: seq<T>)
    ensures Flatten([a]) == a
  {
    assert [a][1..] == [];
  }

  /** Position of the first `c` in `s`, or `|s|` when there is none. */
  function Find<T(==)>(s: seq<T>, c: T): (i: nat)
    ensures i <= |s|
    ensures forall k :: 0 <= k < i ==> s[k] != c
    ensures i < |s| ==> s[i] == c
  {
    FindFrom(s, c, 0)
  }

  function FindFrom<T(==)>(s: seq<T>, c: T, from: nat): (i: nat)
    requires from <= |s|
    ensures from <= i <= |s|
    ensures forall k :: from <= k < i ==> s[k] != c
    ensures i < |s| ==> s[i] == c
    decreases |s| - from
  {
    if from == |s| || s[from] == c then from else FindFrom(s, c, from + 1)
  }

  /** The position that `Find` reports is the only one of its kind. */
  lemma FindIs<T>(s: seq<T>, c: T, n: nat)
    requires n <= |s|
    requires forall k :: 0 <= k < n ==> s[k] != c
    requires n < |s| ==> s[n] == c
    ensures Find(s, c) == n
  {
  }

  /** A `c`-free prefix only shifts the first `c`. */
  lemma FindSkip<T>(p: seq<T>, q: seq<T>, c: T)
    requires c !in p
    ensures Find(p + q, c) == |p| + Find(q, c)
  {
    FindIs(p + q, c, |p| + Find(q, c));
  }

  lemma FindInPrefix<T>(p: seq<T>, q: seq<T>, c: T)
    requires Find(p, c) < |p|
    ensures Find(p + q, c) == Find(p, c)
  {
    FindIs(p + q, c, Find(p, c));
  }

  lemma FindNone<T>(s: seq<T>, c: T)
    requires c !in s
    ensures Find(s, c) == |s|
  {
    FindIs(s, c, |s|);
  }

  /** The `c`-free pieces of `s` around its occurrences of `c`. */
  function Split<T(==)>(s: seq<T>, c: T): (parts: seq<seq<T>>)
    ensures parts != []
    decreases |s|
  {
    var i := Find(s, c);
    if i == |s| then [s] else [s[..i]] + Split(s[i + 1..], c)
  }

  function Join<T>(parts: seq<seq<T>>, c: T): seq<T>
    requires parts != []
  {
    if |parts| == 1 then parts[0] else parts[0] + [c] + Join(parts[1..], c)
  }

  ghost predicate Free<T(!new)>(parts: seq<seq<T>>, c: T) {
    forall p :: p in parts ==> c !in p
  }

  /** Splitting loses nothing, and no piece holds the separator. */
  lemma {:induction false} SplitThenJoin<T(!new)>(s: seq<T>, c: T)
    ensures Join(Split(s, c), c) == s
    ensures Free(Split(s, c), c)
    decreases |s|
  {
    var i := Find(s, c);
    if i < |s| {
      SplitThenJoin(s[i + 1..], c);
      assert Split(s, c)[1..] == Split(s[i + 1..], c);
      assert s == s[..i] + [c] + s[i + 1..];
    }
  }

  /** A separator-terminated piece in front adds exactly that piece. */
  lemma SplitCons<T>(p: seq<T>, c: T, rest: seq<T>)
    requires c !in p
    ensures Split(p + [c] + rest, c) == [p] + Split(rest, c)
  {
    var s := p + [c] + rest;
    assert s == p + ([c] + rest);
    FindSkip(p, [c] + rest, c);
    assert s[..|p|] == p && s[|p| + 1..] == rest;
  }

  /** Splitting is the only way to cut a sequence into separator-free pieces. */
  lemma {:induction false} JoinThenSplit<T(!new)>(parts: seq<seq<T>>, c: T)
    requires parts != [] && Free(parts, c)
    ensures Split(Join(parts, c), c) == parts
  {
    assert parts[0] in parts;
    if |parts| == 1 {
      FindNone(parts[0], c);
    } else {
      JoinThenSplit(parts[1..], c);
      SplitCons(parts[0], c, Join(parts[1..], c));
    }
  }
}
