/** `HashArray`: the hashes of a table of strings with their positions, sorted once and searched
    by bisection (mod/src/algorithms/crc32.h). */
module HashIndex {
  import opened Crc32

  /** A hash, ordered as an unsigned number, and a position in the table. */
  type Pair = (nat, nat)

  function Hash(str: Str): nat {
    CrcOf(str) as nat
  }

  lemma SameHash(a: Str, b: Str)
    ensures Hash(a) == Hash(b) ==> CrcOf(a) == CrcOf(b)
  {
    hide CrcOf;
    WordOfNumber(CrcOf(a));
    WordOfNumber(CrcOf(b));
  }

  lemma WordOfNumber(x: bv32)
    ensures (x as nat) as bv32 == x
  {
  }

  predicate Sorted(m: seq<Pair>) {
    forall i, j :: 0 <= i < j < |m| ==> m[i].0 <= m[j].0
  }

  /** The pairs before they are sorted. */
  function Filled(strings: seq<Str>): seq<Pair> {
    seq(|strings|, i requires 0 <= i < |strings| => (Hash(strings[i]), i))
  }

  /** Two strings of the table only share a hash if they are the same string. */
  predicate NoCollisions(strings: seq<Str>) {
    forall i, j :: 0 <= i < |strings| && 0 <= j < |strings| && Hash(strings[i]) == Hash(strings[j])
             ==> strings[i] == strings[j]
  }

  /** What a linear scan of the table may answer: `-1` if no entry has the hash, else some entry that has it. */
  predicate IsIndexOf(strings: seq<Str>, hash: nat, r: int) {
    if forall i :: 0 <= i < |strings| ==> Hash(strings[i]) != hash then r == -1
    else 0 <= r < |strings| && Hash(strings[r]) == hash
  }

  class HashArray {
    const hashes: array<Pair>
    ghost const strings: seq<Str>

    ghost predicate Valid()
      reads this, hashes
    {
      && Sorted(hashes[..])
      && multiset(hashes[..]) == multiset(Filled(strings))
    }

    constructor (strings: seq<Str>, signedChar: bool)
      ensures Valid() && this.strings == strings && fresh(hashes)
    {
      this.strings := strings;
      hashes := new Pair[|strings|](_ => (0, 0));
      new;
      for i := 0 to |strings|
        invariant hashes[..i] == Filled(strings)[..i]
      {
        var hash := HashStr(strings[i], signedChar);
        hashes[i] := (hash as nat, i);
        assert hashes[..i + 1] == hashes[..i] + [(hash as nat, i)];
      }
      assert hashes[..] == Filled(strings);
      SortByHash(hashes);
    }

    /** `FindIndex`: lower bound of the hash, then a check that it was met. */
    method FindIndex(str: Str, signedChar: bool) returns (r: int)
      requires Valid()
      ensures IsIndexOf(strings, Hash(str), r)
    {
      var crc := HashStr(str, signedChar);
      var hash := crc as nat;
      var k := LowerBound(hashes, hash);
      assert forall i :: 0 <= i < hashes.Length ==> hashes[..][i] == hashes[i];
      if k == hashes.Length || hashes[k].0 != hash {
        NoneHasHash(hashes[..], strings, k, hash);
        return -1;
      }
      OneHasHash(hashes[..], strings, k);
      return hashes[k].1;
    }
  }

  lemma PairsAreEntries(m: seq<Pair>, strings: seq<Str>)
    requires multiset(m) == multiset(Filled(strings))
    ensures forall k :: 0 <= k < |m| ==> m[k].1 < |strings| && m[k].0 == Hash(strings[m[k].1])
    ensures forall i :: 0 <= i < |strings| ==> exists p :: 0 <= p < |m| && m[p] == (Hash(strings[i]), i)
  {
    var f := Filled(strings);
    forall k | 0 <= k < |m| ensures m[k].1 < |strings| && m[k].0 == Hash(strings[m[k].1]) {
      assert m[k] in multiset(f);
    }
    forall i | 0 <= i < |strings| ensures exists p :: 0 <= p < |m| && m[p] == (Hash(strings[i]), i) {
      assert f[i] in multiset(m);
    }
  }

  lemma NoneHasHash(m: seq<Pair>, strings: seq<Str>, k: nat, hash: nat)
    requires multiset(m) == multiset(Filled(strings))
    requires k <= |m| && (k < |m| ==> m[k].0 != hash) && Sorted(m)
    requires forall i :: 0 <= i < k ==> m[i].0 < hash
    requires forall i :: k <= i < |m| ==> hash <= m[i].0
    ensures forall i :: 0 <= i < |strings| ==> Hash(strings[i]) != hash
  {
    hide Filled, Hash;
    PairsAreEntries(m, strings);
    forall i | 0 <= i < |strings| ensures Hash(strings[i]) != hash {
      var p :| 0 <= p < |m| && m[p] == (Hash(strings[i]), i);
      assert k < |m| ==> m[k].0 > hash;
      assert p > k ==> m[k].0 <= m[p].0;
    }
  }

  lemma OneHasHash(m: seq<Pair>, strings: seq<Str>, k: nat)
    requires multiset(m) == multiset(Filled(strings)) && k < |m|
    ensures m[k].1 < |strings| && m[k].0 == Hash(strings[m[k].1])
  {
    PairsAreEntries(m, strings);
  }

  /** The first `n` pairs are in order and not above any pair after them. */
  predicate SortedUpTo(s: seq<Pair>, n: nat) {
    forall i, j :: 0 <= i < n && i < j < |s| ==> s[i].0 <= s[j].0
  }

  function Swapped(s: seq<Pair>, i: nat, j: nat): seq<Pair>
    requires i < |s| && j < |s|
  {
    s[i := s[j]][j := s[i]]
  }

  lemma SwapPermutes(s: seq<Pair>, i: nat, j: nat)
    requires i < |s| && j < |s|
    ensures multiset(Swapped(s, i, j)) == multiset(s)
  {
  }

  lemma OneMoreSorted(s: seq<Pair>, n: nat, least: nat)
    requires SortedUpTo(s, n) && n <= least < |s| && forall j :: n <= j < |s| ==> s[least].0 <= s[j].0
    ensures SortedUpTo(Swapped(s, n, least), n + 1)
  {
    var r := Swapped(s, n, least);
    assert forall j :: 0 <= j < |s| ==> r[j] == if j == least then s[n] else if j == n then s[least] else s[j];
  }

  /** The position of a least hash from `n` on. */
  method LeastFrom(a: array<Pair>, n: nat) returns (least: nat)
    requires n < a.Length
    ensures n <= least < a.Length && forall j :: n <= j < a.Length ==> a[least].0 <= a[j].0
  {
    least := n;
    for k := n to a.Length
      invariant n <= least < a.Length
      invariant forall j :: n <= j < k ==> a[least].0 <= a[j].0
    {
      if a[k].0 < a[least].0 { least := k; }
    }
  }

  lemma SortedToTheEnd(s: seq<Pair>)
    requires SortedUpTo(s, |s|)
    ensures Sorted(s)
  {
  }

  /** `std::sort` by hash, here by selection; equal hashes may end up in any order. */
  method SortByHash(a: array<Pair>)
    modifies a
    ensures Sorted(a[..]) && multiset(a[..]) == multiset(old(a[..]))
  {
    ghost var was := multiset(a[..]);
    for n := 0 to a.Length
      invariant SortedUpTo(a[..], n) && multiset(a[..]) == was
    {
      ghost var s := a[..];
      var least := LeastFrom(a, n);
      assert forall j :: n <= j < |s| ==> s[j] == a[j];
      OneMoreSorted(s, n, least);
      SwapPermutes(s, n, least);
      hide SortedUpTo;
      a[n], a[least] := a[least], a[n];
      assert a[..] == Swapped(s, n, least);
    }
    SortedToTheEnd(a[..]);
  }

  /** `std::ranges::lower_bound` on the hash of the pairs. */
  method LowerBound(a: array<Pair>, hash: nat) returns (k: nat)
    requires Sorted(a[..])
    ensures k <= a.Length
    ensures forall i :: 0 <= i < k ==> a[i].0 < hash
    ensures forall i :: k <= i < a.Length ==> hash <= a[i].0
  {
    var lo, hi := 0, a.Length;
    while lo < hi
      invariant lo <= hi <= a.Length
      invariant forall i :: 0 <= i < lo ==> a[i].0 < hash
      invariant forall i :: hi <= i < a.Length ==> hash <= a[i].0
    {
      var mid := lo + (hi - lo) / 2;
      assert forall i :: 0 <= i < a.Length ==> a[i] == a[..][i];
      if a[mid].0 < hash {
        lo := mid + 1;
      } else {
        hi := mid;
      }
    }
    return lo;
  }
}
