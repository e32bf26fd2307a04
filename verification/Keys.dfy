/** Byte strings, the key order every component compares with, and the records that the order sorts. */
module Keys {

  type byte = x: int | 0 <= x < 256
  type Bytes = seq<byte>
  type Key = Bytes

  /** An order embedding of byte strings into the reals; it is what makes the order below a total order. */
  ghost function Rank(k: Key): (r: real)
    ensures 0.0 <= r < 1.0
    ensures r == 0.0 <==> k == []
  {
    if k == [] then 0.0 else (k[0] as real + 1.0 + Rank(k[1..])) / 257.0
  }

  /** std::string's operator<: bytes compared as unsigned, a proper prefix first. */
  predicate Lt(a: Key, b: Key)
    ensures Lt(a, b) <==> Rank(a) < Rank(b)
    ensures Rank(a) == Rank(b) <==> a == b
  {
    if b == [] then
      false
    else if a == [] then
      true
    else
      RankStep(a, b);
      if a[0] != b[0] then a[0] < b[0] else Lt(a[1..], b[1..])
  }

  /** std::string's operator<=. */
  predicate Le(a: Key, b: Key)
    ensures Le(a, b) <==> Rank(a) <= Rank(b)
    ensures Rank(a) == Rank(b) <==> a == b
  {
    !Lt(b, a)
  }

  lemma RankStep(a: Key, b: Key)
    requires a != [] && b != []
    ensures a[0] < b[0] ==> Rank(a) < Rank(b)
    ensures b[0] < a[0] ==> Rank(b) < Rank(a)
    ensures a[0] == b[0] ==> (Rank(a) < Rank(b) <==> Rank(a[1..]) < Rank(b[1..]))
    ensures a[0] == b[0] ==> (Rank(a) == Rank(b) <==> Rank(a[1..]) == Rank(b[1..]))
    ensures a == b <==> a[0] == b[0] && a[1..] == b[1..]
  {
    assert a == [a[0]] + a[1..] && b == [b[0]] + b[1..];
  }

  /** One record of a table, of the memtable or of a merge: a value, or the tombstone a delete leaves. */
  datatype Entry = Entry(key: Key, value: Bytes, tombstone: bool)

  /** Outcome of a point lookup (kFound, kDeleted, kNotFound). */
  datatype LookupResult = Found(value: Bytes) | Deleted | NotFound
}
