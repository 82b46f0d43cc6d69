/** The virtual-node ring of tutorial/04-consistent-hash/virtual_nodes.go. Each key has a preference
    list: the physical nodes in the order in which a clockwise walk from the key first meets them. */
module PreferenceRing {
  import opened Wrappers
  import opened ConsistentHash

  // ----- Walking the ring -----

  /** Each position is further clockwise from `h` than the one before. */
  ghost predicate Clockwise(s: seq<Hash>, h: Hash) {
    forall i, j :: 0 <= i < j < |s| ==> Dist(h, s[i]) < Dist(h, s[j])
  }

  ghost predicate Strict(s: seq<Hash>) {
    forall i, j :: 0 <= i < j < |s| ==> s[i] < s[j]
  }

  /** The positions in walking order from `h`. */
  function Walk(sorted: seq<Hash>, h: Hash): (r: seq<Hash>)
    ensures |r| == |sorted|
  {
    var i := LowerBound(sorted, h);
    sorted[i..] + sorted[..i]
  }

  lemma WalkClockwise(sorted: seq<Hash>, h: Hash)
    requires Strict(sorted)
    ensures Clockwise(Walk(sorted, h), h)
    ensures forall p :: p in Walk(sorted, h) <==> p in sorted
  {
    var i := LowerBound(sorted, h);
    assert sorted == sorted[..i] + sorted[i..];
  }

  /** The index `i` steps after `start`, wrapping past the end. */
  function Wrap(start: nat, i: nat, n: nat): (r: nat)
    requires start <= n && i < n
    ensures r == if start + i < n then start + i else start + i - n
  {
    WrapIs(start, i, n);
    (start + i) % n
  }

  lemma WrapIs(start: nat, i: nat, n: nat)
    requires start <= n && i < n
    ensures (start + i) % n == if start + i < n then start + i else start + i - n
  {
    if start + i >= n {
      assert start + i == n * 1 + (start + i - n);
    }
  }

  lemma WalkAt(sorted: seq<Hash>, h: Hash, i: nat)
    requires i < |sorted|
    ensures Walk(sorted, h)[i] == sorted[Wrap(LowerBound(sorted, h), i, |sorted|)]
  {
    hide Wrap;
  }

  lemma ClockwiseTail(s: seq<Hash>, h: Hash)
    requires Clockwise(s, h) && s != []
    ensures Clockwise(s[1..], h) && s[0] !in s[1..]
    ensures forall p :: p in s[1..] <==> p in s && p != s[0]
  {
  }

  /** A set of positions can be walked in one order only. */
  lemma {:induction false} WalkUnique(s: seq<Hash>, t: seq<Hash>, h: Hash)
    requires Clockwise(s, h) && Clockwise(t, h)
    requires forall p :: p in s <==> p in t
    ensures s == t
  {
    assert |s| > 0 ==> s[0] in t;
    assert |t| > 0 ==> t[0] in s;
    if s != [] && t != [] {
      assert s[0] == t[0];
      ClockwiseTail(s, h);
      ClockwiseTail(t, h);
      WalkUnique(s[1..], t[1..], h);
      assert s == [s[0]] + s[1..] && t == [t[0]] + t[1..];
    }
  }

  // ----- Preference lists -----

  function Owners(owners: map<Hash, string>, walk: seq<Hash>): (r: seq<string>)
    requires forall p :: p in walk ==> p in owners
    ensures |r| == |walk|
  {
    seq(|walk|, i requires 0 <= i < |walk| => owners[walk[i]])
  }

  /** First occurrences only. */
  function Dedup(s: seq<string>): seq<string> {
    if s == [] then []
    else var front := Dedup(s[..|s| - 1]); if s[|s| - 1] in front then front else front + [s[|s| - 1]]
  }

  function Except(s: seq<string>, n: string): seq<string> {
    if s == [] then []
    else Except(s[..|s| - 1], n) + if s[|s| - 1] == n then [] else [s[|s| - 1]]
  }

  ghost predicate Aligned(owners: map<Hash, string>, sorted: seq<Hash>) {
    Strict(sorted) && forall p :: p in sorted <==> p in owners
  }

  /** The nodes a key at `h` prefers, best first. */
  ghost function Preference(owners: map<Hash, string>, sorted: seq<Hash>, h: Hash): seq<string>
    requires Aligned(owners, sorted)
  {
    WalkClockwise(sorted, h);
    Dedup(Owners(owners, Walk(sorted, h)))
  }

  ghost predicate Distinct(s: seq<string>) {
    forall i, j :: 0 <= i < j < |s| ==> s[i] != s[j]
  }

  lemma DedupEmpty()
    ensures Dedup([]) == []
  {
  }

  lemma {:induction false} DedupExact(s: seq<string>)
    ensures Distinct(Dedup(s))
    ensures forall n :: n in Dedup(s) <==> n in s
  {
    if s != [] {
      DedupExact(s[..|s| - 1]);
      assert s == s[..|s| - 1] + [s[|s| - 1]];
    }
  }

  lemma {:induction false} DedupPrefix(s: seq<string>, i: nat)
    requires i <= |s|
    ensures Dedup(s[..i]) <= Dedup(s)
  {
    if i < |s| {
      var front := s[..|s| - 1];
      DedupPrefix(front, i);
      assert front[..i] == s[..i];
    } else {
      assert s[..i] == s;
    }
  }

  lemma {:induction false} ExceptIn(s: seq<string>, n: string, x: string)
    ensures x in Except(s, n) <==> x in s && x != n
  {
    if s != [] {
      ExceptIn(s[..|s| - 1], n, x);
      assert s == s[..|s| - 1] + [s[|s| - 1]];
    }
  }

  lemma ExceptAppend(s: seq<string>, x: string, n: string)
    ensures Except(s + [x], n) == Except(s, n) + if x == n then [] else [x]
  {
    assert (s + [x])[..|s|] == s;
  }

  lemma DedupAppend(s: seq<string>, x: string)
    ensures Dedup(s + [x]) == if x in Dedup(s) then Dedup(s) else Dedup(s) + [x]
  {
    assert (s + [x])[..|s|] == s;
  }

  lemma {:induction false} DedupExcept(s: seq<string>, n: string)
    ensures Dedup(Except(s, n)) == Except(Dedup(s), n)
  {
    if s != [] {
      var front, x := s[..|s| - 1], s[|s| - 1];
      DedupExcept(front, n);
      ExceptIn(Dedup(front), n, x);
      ExceptAppend(Dedup(front), x, n);
      DedupAppend(Except(front, n), x);
      assert x == n ==> Except(s, n) == Except(front, n);
    }
  }

  /** The positions of `walk` not owned by `n`. */
  function Keep(walk: seq<Hash>, owners: map<Hash, string>, n: string): (r: seq<Hash>)
    requires forall p :: p in walk ==> p in owners
    ensures forall p :: p in r <==> p in walk && owners[p] != n
  {
    if walk == [] then []
    else
      var last := walk[|walk| - 1];
      assert forall p :: p in walk <==> p in walk[..|walk| - 1] || p == last;
      Keep(walk[..|walk| - 1], owners, n) + if owners[last] == n then [] else [last]
  }

  lemma {:induction false} KeepClockwise(walk: seq<Hash>, owners: map<Hash, string>, n: string, h: Hash)
    requires forall p :: p in walk ==> p in owners
    requires Clockwise(walk, h)
    ensures Clockwise(Keep(walk, owners, n), h)
  {
    if walk != [] {
      var front := walk[..|walk| - 1];
      KeepClockwise(front, owners, n, h);
      var kept := Keep(front, owners, n);
      forall i | 0 <= i < |kept| ensures Dist(h, kept[i]) < Dist(h, walk[|walk| - 1]) {
        assert kept[i] in front;
      }
    }
  }

  lemma OwnersAppend(owners: map<Hash, string>, walk: seq<Hash>, last: Hash)
    requires last in owners && forall p :: p in walk ==> p in owners
    ensures forall p :: p in walk + [last] ==> p in owners
    ensures Owners(owners, walk + [last]) == Owners(owners, walk) + [owners[last]]
  {
  }

  lemma {:induction false} KeepOwners(walk: seq<Hash>, owners: map<Hash, string>, n: string)
    requires forall p :: p in walk ==> p in owners
    ensures Owners(Without(owners, n), Keep(walk, owners, n)) == Except(Owners(owners, walk), n)
  {
    if walk == [] {
      assert Owners(owners, walk) == [];
    } else {
      var front, last := walk[..|walk| - 1], walk[|walk| - 1];
      KeepOwners(front, owners, n);
      assert walk == front + [last];
      OwnersAppend(owners, front, last);
      ExceptAppend(Owners(owners, front), owners[last], n);
      hide Except, Owners;
      if owners[last] != n {
        OwnersAppend(Without(owners, n), Keep(front, owners, n), last);
      }
    }
  }

  /** Taking a node's positions away strikes it from every preference list and leaves the rest of
      the list as it was. Read backwards, it is what adding the node does. */
  lemma PreferenceWithout(owners: map<Hash, string>, sorted: seq<Hash>, rest: seq<Hash>, n: string, h: Hash)
    requires Aligned(owners, sorted) && Aligned(Without(owners, n), rest)
    ensures Preference(Without(owners, n), rest, h) == Except(Preference(owners, sorted, h), n)
  {
    var walk := Walk(sorted, h);
    WalkClockwise(sorted, h);
    WalkClockwise(rest, h);
    KeepClockwise(walk, owners, n, h);
    WalkUnique(Keep(walk, owners, n), Walk(rest, h), h);
    KeepOwners(walk, owners, n);
    DedupExcept(Owners(owners, walk), n);
  }

  /** The list depends on the positions and their owners only. */
  lemma PreferenceUnique(owners: map<Hash, string>, s: seq<Hash>, t: seq<Hash>)
    requires Aligned(owners, s) && Aligned(owners, t)
    ensures s == t
  {
    WalkUnique(s, t, 0);
  }

  lemma OwnersNext(owners: map<Hash, string>, walk: seq<Hash>, i: nat)
    requires i < |walk| && forall p :: p in walk ==> p in owners
    ensures Owners(owners, walk)[..i + 1] == Owners(owners, walk)[..i] + [owners[walk[i]]]
  {
  }

  lemma OwnersValues(owners: map<Hash, string>, walk: seq<Hash>)
    requires forall p :: p in walk <==> p in owners
    ensures forall n :: n in Owners(owners, walk) <==> n in owners.Values
  {
    forall n | n in owners.Values ensures n in Owners(owners, walk) {
      var p :| p in owners && owners[p] == n;
      var i :| 0 <= i < |walk| && walk[i] == p;
      assert Owners(owners, walk)[i] == n;
    }
  }

  lemma {:induction false} DistinctCount(s: seq<string>, nodes: set<string>)
    requires Distinct(s) && forall n :: n in s <==> n in nodes
    ensures |s| == |nodes|
  {
    if s == [] {
      assert nodes == {};
    } else {
      assert s[0] in nodes && forall n :: n in s[1..] <==> n in nodes - {s[0]};
      DistinctCount(s[1..], nodes - {s[0]});
    }
  }

  /** Every node that owns a position is listed once, and the key's own node comes first. */
  lemma PreferenceExact(owners: map<Hash, string>, sorted: seq<Hash>, h: Hash)
    requires Aligned(owners, sorted)
    ensures var list := Preference(owners, sorted, h);
            && Distinct(list) && |list| == |owners.Values|
            && (forall n :: n in list <==> n in owners.Values)
            && (sorted != [] ==> list != [] && list[0] == owners[Successor(sorted, h)])
  {
    var walk := Walk(sorted, h);
    WalkClockwise(sorted, h);
    var all := Owners(owners, walk);
    DedupExact(all);
    OwnersValues(owners, walk);
    DistinctCount(Dedup(all), owners.Values);
    if sorted != [] {
      DedupPrefix(all, 1);
      assert all[..1] == [all[0]] && Dedup([all[0]]) == [all[0]];
      assert walk[0] == Successor(sorted, h);
    }
  }

  lemma {:induction false} DedupFirst(s: seq<string>, i: nat, j: nat) returns (a: nat)
    requires i < j < |Dedup(s)|
    ensures a < |s| && s[a] == Dedup(s)[i] && forall b :: 0 <= b < |s| && s[b] == Dedup(s)[j] ==> a < b
  {
    var front, x := s[..|s| - 1], s[|s| - 1];
    DedupExact(front);
    if j < |Dedup(front)| {
      a := DedupFirst(front, i, j);
      DedupExact(s);
      assert Dedup(s)[i] != Dedup(s)[j];
      assert x !in Dedup(front) ==> x != Dedup(s)[j];
    } else {
      assert Dedup(front)[i] in front;
      a :| 0 <= a < |front| && front[a] == Dedup(front)[i];
    }
  }

  /** A node precedes another in the list of a key exactly because one of its positions is nearer,
      clockwise, than every position of the other. */
  lemma PreferenceNearest(owners: map<Hash, string>, sorted: seq<Hash>, h: Hash, i: nat, j: nat)
    requires Aligned(owners, sorted) && i < j < |Preference(owners, sorted, h)|
    ensures var list := Preference(owners, sorted, h);
            exists p :: p in owners && owners[p] == list[i]
                        && forall q :: q in owners && owners[q] == list[j] ==> Dist(h, p) < Dist(h, q)
  {
    var walk := Walk(sorted, h);
    WalkClockwise(sorted, h);
    var a := DedupFirst(Owners(owners, walk), i, j);
    forall q | q in owners && owners[q] == Preference(owners, sorted, h)[j] ensures Dist(h, walk[a]) < Dist(h, q) {
      var b :| 0 <= b < |walk| && walk[b] == q;
      assert Owners(owners, walk)[b] == owners[q];
    }
  }

  // ----- Replicas -----

  function Take(s: seq<string>, count: int): seq<string> {
    if count <= 0 then [] else if count < |s| then s[..count] else s
  }

  lemma TakeExact(s: seq<string>, count: int)
    requires Distinct(s)
    ensures Take(s, count) <= s && Distinct(Take(s, count))
    ensures |Take(s, count)| == if count <= 0 then 0 else if count < |s| then count else |s|
  {
  }

  lemma {:induction false} ExceptAbsent(s: seq<string>, n: string)
    requires n !in s
    ensures Except(s, n) == s
  {
    if s != [] {
      ExceptAbsent(s[..|s| - 1], n);
    }
  }

  lemma {:induction false} ExceptSplit(s: seq<string>, t: seq<string>, n: string)
    ensures Except(s + t, n) == Except(s, n) + Except(t, n)
  {
    if t == [] {
      assert s + t == s;
    } else {
      var front := t[..|t| - 1];
      ExceptSplit(s, front, n);
      assert s + t == (s + front) + [t[|t| - 1]];
      ExceptAppend(s + front, t[|t| - 1], n);
    }
  }

  lemma ExceptMiddle(front: seq<string>, back: seq<string>, n: string)
    requires n !in front && n !in back
    ensures Except(front + [n] + back, n) == front + back
  {
    hide Except;
    ExceptSplit(front + [n], back, n);
    ExceptAppend(front, n, n);
    ExceptAbsent(front, n);
    ExceptAbsent(back, n);
  }

  lemma ReplicasWithout(front: seq<string>, back: seq<string>, n: string, count: nat)
    requires n !in front && n !in back && |front| < count
    ensures Take(front + back, count) == Except(Take(front + [n] + back, count + 1), n)
  {
    var more := Take(back, count - |front|);
    assert Take(front + [n] + back, count + 1) == front + [n] + more;
    assert Take(front + back, count) == front + more;
    ExceptMiddle(front, more, n);
  }

  /** When a node leaves, a key that did not use it keeps its replicas, and a key that did keeps the
      others in order and gains the next node of its list, if there is one. */
  lemma ReplicasAfterRemoval(list: seq<string>, n: string, count: nat)
    requires Distinct(list)
    ensures Take(Except(list, n), count)
            == if n in Take(list, count) then Except(Take(list, count + 1), n) else Take(list, count)
  {
    if k :| 0 <= k < |list| && list[k] == n {
      var front, back := list[..k], list[k + 1..];
      assert list == front + [n] + back;
      ExceptMiddle(front, back, n);
      if k < count {
        assert Take(list, count)[k] == n;
        ReplicasWithout(front, back, n, count);
      } else {
        assert Take(front + back, count) == Take(list, count) == front[..count];
      }
    } else {
      ExceptAbsent(list, n);
    }
  }

  // ----- Finding a free position -----

  /** The hash tried for virtual node `i` of `id` after `k` collisions. */
  function Candidate(hash: HashFunction, id: string, i: nat, k: nat): Hash {
    if k == 0 then hash(Label(id, i))
    else hash(Label(id, i) + "#" + Digits(Candidate(hash, id, i, k - 1) % 1000))
  }

  /** The `k`-th candidate is the first that is not taken. */
  ghost predicate Lands(owners: map<Hash, string>, hash: HashFunction, id: string, i: nat, k: nat) {
    Candidate(hash, id, i, k) !in owners && forall j: nat :: j < k ==> Candidate(hash, id, i, j) in owners
  }

  /** Re-hashing comes to an end for each of the virtual nodes from `i` on. */
  ghost predicate Settles(owners: map<Hash, string>, hash: HashFunction, id: string, i: nat, count: int)
    decreases count - i
  {
    i < count ==>
      exists k: nat :: Lands(owners, hash, id, i, k)
          && Settles(owners[Candidate(hash, id, i, k) := id], hash, id, i + 1, count)
  }

  /** The map once the virtual nodes from `i` on are placed. */
  ghost function Place(owners: map<Hash, string>, hash: HashFunction, id: string, i: nat, count: int): map<Hash, string>
    requires Settles(owners, hash, id, i, count)
    decreases count - i
  {
    if i >= count then owners
    else
      var k: nat :| Lands(owners, hash, id, i, k)
          && Settles(owners[Candidate(hash, id, i, k) := id], hash, id, i + 1, count);
      Place(owners[Candidate(hash, id, i, k) := id], hash, id, i + 1, count)
  }

  lemma PlaceNext(owners: map<Hash, string>, hash: HashFunction, id: string, i: nat, count: int, k: nat)
    requires i < count && Lands(owners, hash, id, i, k) && Settles(owners, hash, id, i, count)
    ensures Settles(owners[Candidate(hash, id, i, k) := id], hash, id, i + 1, count)
    ensures Place(owners, hash, id, i, count) == Place(owners[Candidate(hash, id, i, k) := id], hash, id, i + 1, count)
  {
    forall j: nat | Lands(owners, hash, id, i, j) ensures j == k {
    }
  }

  /** Every virtual node gets a position of its own, and no position changes hands. */
  lemma {:induction false} PlaceExact(owners: map<Hash, string>, hash: HashFunction, id: string, i: nat, count: int)
    requires Settles(owners, hash, id, i, count)
    ensures var after := Place(owners, hash, id, i, count);
            && |after| == |owners| + (if i < count then count - i else 0)
            && (forall p :: p in owners ==> p in after && after[p] == owners[p])
            && (forall p :: p in after && p !in owners ==> after[p] == id)
    decreases count - i
  {
    if i < count {
      var k: nat :| Lands(owners, hash, id, i, k)
          && Settles(owners[Candidate(hash, id, i, k) := id], hash, id, i + 1, count);
      PlaceNext(owners, hash, id, i, count, k);
      PlaceExact(owners[Candidate(hash, id, i, k) := id], hash, id, i + 1, count);
    }
  }

  lemma PlaceWithout(owners: map<Hash, string>, hash: HashFunction, id: string, count: int)
    requires Settles(owners, hash, id, 0, count) && forall p :: p in owners ==> owners[p] != id
    ensures var after := Place(owners, hash, id, 0, count);
            && Without(after, id) == owners
            && (forall p :: p in after ==> after[p] == id || (p in owners && after[p] == owners[p]))
  {
    PlaceExact(owners, hash, id, 0, count);
  }

  /** Labels of the new node that meet neither each other nor the ring are placed where they hash. */
  lemma {:induction false} CollisionFreeSettles(owners: map<Hash, string>, hash: HashFunction, id: string, i: nat,
                                                count: nat)
    requires i <= count
    requires forall j: nat :: i <= j < count ==> hash(Label(id, j)) !in owners
    requires forall j: nat, k: nat :: i <= j < k < count ==> hash(Label(id, j)) != hash(Label(id, k))
    ensures Settles(owners, hash, id, i, count)
    ensures Place(owners, hash, id, i, count) == Claim(owners, VirtualHashes(hash, id, count)[i..], id)
    decreases count - i
  {
    hide Label, Digits, VirtualHashes;
    var rest := VirtualHashes(hash, id, count)[i..];
    if i < count {
      assert Candidate(hash, id, i, 0) == hash(Label(id, i)) == rest[0];
      var next := owners[rest[0] := id];
      CollisionFreeSettles(next, hash, id, i + 1, count);
      assert Lands(owners, hash, id, i, 0);
      hide Lands;
      assert Settles(owners, hash, id, i, count);
      PlaceNext(owners, hash, id, i, count, 0);
      hide Place, Settles;
      ClaimFront(owners, rest, id);
      assert rest[1..] == VirtualHashes(hash, id, count)[i + 1..];
    } else {
      assert rest == [];
    }
  }

  lemma ClaimFront(owners: map<Hash, string>, hashes: seq<Hash>, node: string)
    requires hashes != []
    ensures Claim(owners, hashes, node) == Claim(owners[hashes[0] := node], hashes[1..], node)
  {
    assert forall h :: h in hashes <==> h == hashes[0] || h in hashes[1..];
  }

  // ----- The order of insertion -----

  /** A node and the number of virtual nodes its weight buys. */
  datatype Joining = Joining(id: string, count: nat)

  /** No two virtual nodes of these shares hash alike. */
  ghost predicate AllApart(hash: HashFunction, shares: set<Joining>) {
    forall s, t, i: nat, j: nat ::
      s in shares && t in shares && i < s.count && j < t.count && hash(Label(s.id, i)) == hash(Label(t.id, j)) ==>
        s == t && i == j
  }

  ghost predicate Claimed(hash: HashFunction, s: Joining, p: Hash) {
    p in VirtualHashes(hash, s.id, s.count)
  }

  /** The positions are the virtual nodes of the shares, each owned by its node. */
  ghost predicate IsPlacement(owners: map<Hash, string>, hash: HashFunction, shares: set<Joining>) {
    && (forall s, p :: s in shares && Claimed(hash, s, p) ==> p in owners && owners[p] == s.id)
    && (forall p :: p in owners ==> exists s :: s in shares && Claimed(hash, s, p))
  }

  lemma PlacementUnique(a: map<Hash, string>, b: map<Hash, string>, hash: HashFunction, shares: set<Joining>)
    requires IsPlacement(a, hash, shares) && IsPlacement(b, hash, shares)
    ensures a == b
  {
    hide Claimed;
    assert forall p :: p in a ==> p in b && a[p] == b[p];
    assert forall p :: p in b ==> p in a;
  }

  lemma ClaimedOnce(hash: HashFunction, shares: set<Joining>, s: Joining, t: Joining, p: Hash)
    requires AllApart(hash, shares) && s in shares && t in shares && Claimed(hash, s, p) && Claimed(hash, t, p)
    ensures s == t
  {
    var i :| 0 <= i < s.count && VirtualHashes(hash, s.id, s.count)[i] == p;
    var j :| 0 <= j < t.count && VirtualHashes(hash, t.id, t.count)[j] == p;
    assert hash(Label(s.id, i)) == hash(Label(t.id, j));
  }

  lemma NewlyFree(owners: map<Hash, string>, hash: HashFunction, shares: set<Joining>, s: Joining)
    requires IsPlacement(owners, hash, shares) && AllApart(hash, shares + {s}) && s !in shares
    ensures forall p :: Claimed(hash, s, p) ==> p !in owners
  {
    hide Claimed, AllApart;
    forall p | Claimed(hash, s, p) && p in owners ensures false {
      var t :| t in shares && Claimed(hash, t, p);
      ClaimedOnce(hash, shares + {s}, s, t, p);
    }
  }

  lemma ClaimPlacement(owners: map<Hash, string>, hash: HashFunction, shares: set<Joining>, s: Joining)
    requires IsPlacement(owners, hash, shares) && forall p :: Claimed(hash, s, p) ==> p !in owners
    ensures IsPlacement(Claim(owners, VirtualHashes(hash, s.id, s.count), s.id), hash, shares + {s})
  {
    assert forall p :: p in VirtualHashes(hash, s.id, s.count) <==> Claimed(hash, s, p);
    hide Claimed, VirtualHashes;
    var after := Claim(owners, VirtualHashes(hash, s.id, s.count), s.id);
    forall p | p in after ensures exists t :: t in shares + {s} && Claimed(hash, t, p) {
      if !Claimed(hash, s, p) {
        var t :| t in shares && Claimed(hash, t, p);
        assert t in shares + {s};
      }
    }
  }

  lemma AddPlacement(owners: map<Hash, string>, hash: HashFunction, shares: set<Joining>, s: Joining)
    requires IsPlacement(owners, hash, shares) && AllApart(hash, shares + {s}) && s !in shares
    ensures Settles(owners, hash, s.id, 0, s.count)
    ensures IsPlacement(Place(owners, hash, s.id, 0, s.count), hash, shares + {s})
  {
    NewlyFree(owners, hash, shares, s);
    ClaimPlacement(owners, hash, shares, s);
    hide IsPlacement, Settles, Place;
    var hashes := VirtualHashes(hash, s.id, s.count);
    assert hashes[0..] == hashes;
    forall i: nat | i < s.count ensures hash(Label(s.id, i)) !in owners {
      assert hashes[i] in hashes && Claimed(hash, s, hashes[i]);
    }
    assert s in shares + {s};
    CollisionFreeSettles(owners, hash, s.id, 0, s.count);
  }

  /** AddNode for each share in turn, on an empty ring. */
  ghost predicate AddedInTurn(hash: HashFunction, adds: seq<Joining>, owners: map<Hash, string>) {
    if adds == [] then owners == map[]
    else
      var n := |adds| - 1;
      exists mid ::
        AddedInTurn(hash, adds[..n], mid) && Settles(mid, hash, adds[n].id, 0, adds[n].count)
        && owners == Place(mid, hash, adds[n].id, 0, adds[n].count)
  }

  lemma {:induction false} AddedPlacement(hash: HashFunction, adds: seq<Joining>, owners: map<Hash, string>)
    requires AddedInTurn(hash, adds, owners) && AllApart(hash, set s | s in adds)
    requires forall i, j :: 0 <= i < j < |adds| ==> adds[i] != adds[j]
    ensures IsPlacement(owners, hash, set s | s in adds)
  {
    if adds != [] {
      var n := |adds| - 1;
      var before := set s | s in adds[..n];
      assert (set s | s in adds) == before + {adds[n]} by {
        assert adds == adds[..n] + [adds[n]];
      }
      var mid :| AddedInTurn(hash, adds[..n], mid) && Settles(mid, hash, adds[n].id, 0, adds[n].count)
                 && owners == Place(mid, hash, adds[n].id, 0, adds[n].count);
      hide Settles, Place, IsPlacement;
      AddedPlacement(hash, adds[..n], mid);
      AddPlacement(mid, hash, before, adds[n]);
    }
  }

  /** The order in which nodes joined a collision-free ring leaves no trace in any preference list. */
  lemma InsertionOrderIrrelevant(hash: HashFunction, a: seq<Joining>, b: seq<Joining>, x: map<Hash, string>,
                                 y: map<Hash, string>,
                                 s: seq<Hash>, t: seq<Hash>, h: Hash)
    requires AddedInTurn(hash, a, x) && AddedInTurn(hash, b, y) && Aligned(x, s) && Aligned(y, t)
    requires (set n | n in a) == (set n | n in b) && AllApart(hash, set n | n in a)
    requires forall i, j :: 0 <= i < j < |a| ==> a[i] != a[j]
    requires forall i, j :: 0 <= i < j < |b| ==> b[i] != b[j]
    ensures x == y && Preference(x, s, h) == Preference(y, t, h)
  {
    hide AddedInTurn, AllApart, IsPlacement, Aligned, Preference;
    AddedPlacement(hash, a, x);
    AddedPlacement(hash, b, y);
    PlacementUnique(x, y, hash, set n | n in a);
    PreferenceUnique(x, s, t);
  }

  // ----- Sorting distinct positions -----

  ghost predicate NoRepeats(s: seq<Hash>) {
    forall i, j :: 0 <= i < j < |s| ==> s[i] != s[j]
  }

  lemma StrictFront(s: seq<Hash>, h: Hash)
    requires Strict(s) && forall p :: p in s ==> h < p
    ensures Strict([h] + s)
  {
    forall k | 0 <= k < |s| ensures h < s[k] {
      assert s[k] in s;
    }
  }

  lemma {:induction false} InsertStrict(s: seq<Hash>, h: Hash)
    requires Strict(s) && h !in s
    ensures Strict(Insert(s, h)) && forall p :: p in Insert(s, h) <==> p == h || p in s
  {
    if s == [] {
      assert Insert(s, h) == [h];
    } else {
      assert forall p :: p in s <==> p == s[0] || p in s[1..];
      assert forall p :: p in s[1..] ==> s[0] < p;
      assert h != s[0];
      if s[0] < h {
        InsertStrict(s[1..], h);
        StrictFront(Insert(s[1..], h), s[0]);
      } else {
        StrictFront(s, h);
      }
    }
  }

  lemma {:induction false} SortStrict(s: seq<Hash>)
    requires NoRepeats(s)
    ensures Strict(Sort(s)) && forall p :: p in Sort(s) <==> p in s
  {
    if s != [] {
      SortStrict(s[1..]);
      InsertStrict(Sort(s[1..]), s[0]);
    }
  }

  // ----- The ring object -----

  datatype Node = Node(id: string, address: string, weight: int)

  /** The virtual nodes a weight buys: a hundredth of `virtualCount` for each unit. */
  function Share(virtualCount: int, node: Node): int {
    if node.weight > 0 then virtualCount * node.weight / 100 else virtualCount
  }

  /** A weight buys a hundredth of `virtualCount` positions for each unit, rounded down. */
  ghost predicate Gained(gained: int, virtualCount: int, weight: int) {
    && (virtualCount <= 0 ==> gained == 0)
    && (virtualCount > 0 && weight <= 0 ==> gained == virtualCount)
    && (virtualCount > 0 && weight > 0 ==> 100 * gained <= virtualCount * weight < 100 * gained + 100)
  }

  lemma ShareGains(virtualCount: int, node: Node, gained: int)
    requires gained == var share := Share(virtualCount, node); if share > 0 then share else 0
    ensures Gained(gained, virtualCount, node.weight)
  {
    if virtualCount <= 0 && node.weight > 0 {
      assert virtualCount * node.weight <= 0;
    } else if node.weight > 0 {
      assert virtualCount * node.weight > 0;
    }
  }

  class VirtualHashRing {
    const hash: HashFunction
    const virtualCount: int
    var virtualNodes: map<Hash, string>
    var sortedHashes: seq<Hash>
    var physicalNodes: map<string, Node>

    ghost predicate Valid()
      reads this
    {
      && Aligned(virtualNodes, sortedHashes)
      && (forall p :: p in virtualNodes ==> virtualNodes[p] in physicalNodes)
      && (forall n :: n in physicalNodes ==> physicalNodes[n].id == n)
    }

    /** The full replica order of a key at `h`. */
    ghost function List(h: Hash): seq<string>
      requires Valid()
      reads this
    {
      Preference(virtualNodes, sortedHashes, h)
    }

    constructor (hash: HashFunction, virtualCount: int)
      ensures Valid() && this.hash == hash && this.virtualCount == virtualCount
      ensures virtualNodes == map[] && physicalNodes == map[]
    {
      this.hash, this.virtualCount := hash, virtualCount;
      virtualNodes, sortedHashes, physicalNodes := map[], [], map[];
    }

    /** The re-hash loop. */
    method FindPosition(id: string, i: nat, ghost k: nat) returns (virtualHash: Hash)
      requires Lands(virtualNodes, hash, id, i, k)
      ensures virtualHash == Candidate(hash, id, i, k)
    {
      var virtualID := Label(id, i);
      virtualHash := hash(virtualID);
      ghost var tried: nat := 0;
      while virtualHash in virtualNodes
        invariant virtualHash == Candidate(hash, id, i, tried) && tried <= k
        decreases k - tried
      {
        virtualID := Label(id, i) + "#" + Digits(virtualHash % 1000);
        virtualHash := hash(virtualID);
        tried := tried + 1;
      }
    }

    /** Adding a node leaves every list as it was, the new node slotted in somewhere; adding a known
        ID does nothing, whatever the weight. Re-hashing must come to an end. */
    method AddNode(node: Node)
      requires Valid()
      requires node.id !in physicalNodes ==> Settles(virtualNodes, hash, node.id, 0, Share(virtualCount, node))
      modifies this
      ensures Valid()
      ensures node.id in old(physicalNodes) ==>
                virtualNodes == old(virtualNodes) && physicalNodes == old(physicalNodes)
      ensures node.id !in old(physicalNodes) ==>
                && physicalNodes == old(physicalNodes)[node.id := node]
                && virtualNodes == Place(old(virtualNodes), hash, node.id, 0, Share(virtualCount, node))
      ensures forall h: Hash :: old(List(h)) ==
                if node.id in old(physicalNodes) then List(h) else Except(List(h), node.id)
      ensures node.id !in old(physicalNodes) ==>
                Gained(|virtualNodes| - |old(virtualNodes)|, virtualCount, node.weight)
    {
      if node.id in physicalNodes {
        return;
      }
      hide Place, Settles, Strict, Preference, Without, Except, Sort, NoRepeats, Gained;
      ghost var was, wasSorted := virtualNodes, sortedHashes;
      physicalNodes := physicalNodes[node.id := node];
      var virtualNodeCount := virtualCount;
      if node.weight > 0 {
        virtualNodeCount := virtualCount * node.weight / 100;
      }
      assert virtualNodeCount == Share(virtualCount, node);
      hide Share;
      PlaceVirtualNodes(node.id, virtualNodeCount);
      SortStrict(sortedHashes);
      sortedHashes := Sort(sortedHashes);
      PlaceWithout(was, hash, node.id, virtualNodeCount);
      ShareGains(virtualCount, node, |virtualNodes| - |was|);
      forall h: Hash ensures Preference(was, wasSorted, h) == Except(List(h), node.id) {
        PreferenceWithout(virtualNodes, sortedHashes, wasSorted, node.id, h);
      }
    }

    /** The loop of AddNode over the virtual nodes. */
    method PlaceVirtualNodes(id: string, count: int)
      requires Aligned(virtualNodes, sortedHashes) && Settles(virtualNodes, hash, id, 0, count)
      modifies `virtualNodes, `sortedHashes
      ensures virtualNodes == Place(old(virtualNodes), hash, id, 0, count)
      ensures |virtualNodes| == |old(virtualNodes)| + if count > 0 then count else 0
      ensures NoRepeats(sortedHashes) && forall p :: p in sortedHashes <==> p in virtualNodes
    {
      var i := 0;
      while i < count
        invariant i >= 0 && |virtualNodes| == |old(virtualNodes)| + i && (count > 0 ==> i <= count)
        invariant Settles(virtualNodes, hash, id, i, count)
        invariant Place(virtualNodes, hash, id, i, count) == Place(old(virtualNodes), hash, id, 0, count)
        invariant NoRepeats(sortedHashes) && forall p :: p in sortedHashes <==> p in virtualNodes
      {
        ghost var k: nat :| Lands(virtualNodes, hash, id, i, k);
        var virtualHash := FindPosition(id, i, k);
        PlaceNext(virtualNodes, hash, id, i, count, k);
        virtualNodes := virtualNodes[virtualHash := id];
        sortedHashes := sortedHashes + [virtualHash];
        i := i + 1;
      }
    }

    /** Removing a node strikes it from every list. */
    method RemoveNode(nodeID: string)
      requires Valid()
      modifies this
      ensures Valid()
      ensures physicalNodes == old(physicalNodes) - {nodeID}
      ensures virtualNodes == Without(old(virtualNodes), nodeID)
      ensures forall h: Hash :: List(h) == Except(old(List(h)), nodeID)
    {
      ghost var was, wasSorted := virtualNodes, sortedHashes;
      if nodeID in physicalNodes {
        var newSortedHashes := DropVirtualNodes(nodeID);
        SortStrict(newSortedHashes);
        sortedHashes := Sort(newSortedHashes);
        physicalNodes := physicalNodes - {nodeID};
      } else {
        assert Without(virtualNodes, nodeID) == virtualNodes;
      }
      forall h: Hash ensures List(h) == Except(Preference(was, wasSorted, h), nodeID) {
        PreferenceWithout(was, wasSorted, sortedHashes, nodeID, h);
      }
    }

    /** The loop of RemoveNode: the map is visited in any order and thinned out on the way. */
    method DropVirtualNodes(nodeID: string) returns (newSortedHashes: seq<Hash>)
      modifies `virtualNodes
      ensures virtualNodes == Without(old(virtualNodes), nodeID)
      ensures NoRepeats(newSortedHashes) && forall p :: p in newSortedHashes <==> p in virtualNodes
    {
      var pending := virtualNodes.Keys;
      newSortedHashes := [];
      while pending != {}
        invariant forall p :: p in virtualNodes <==>
                    p in old(virtualNodes) && (old(virtualNodes)[p] != nodeID || p in pending)
        invariant forall p :: p in virtualNodes ==> virtualNodes[p] == old(virtualNodes)[p]
        invariant pending <= virtualNodes.Keys
        invariant NoRepeats(newSortedHashes)
        invariant forall p :: p in newSortedHashes <==> p in virtualNodes && p !in pending
      {
        var hash :| hash in pending;
        if virtualNodes[hash] == nodeID {
          virtualNodes := virtualNodes - {hash};
        } else {
          newSortedHashes := newSortedHashes + [hash];
        }
        pending := pending - {hash};
      }
    }

    method GetNode(key: string) returns (node: Option<string>)
      requires Valid()
      ensures virtualNodes == map[] ==> node == None
      ensures virtualNodes != map[] ==>
                && node == Some(virtualNodes[Successor(sortedHashes, hash(key))])
                && List(hash(key)) != [] && List(hash(key))[0] == node.value
      ensures node.Some? ==> node.value in physicalNodes
    {
      PreferenceExact(virtualNodes, sortedHashes, hash(key));
      if |sortedHashes| == 0 {
        assert virtualNodes == map[];
        return None;
      }
      assert sortedHashes[0] in virtualNodes;
      var keyHash := hash(key);
      var idx := Search(sortedHashes, keyHash);
      if idx == |sortedHashes| {
        idx := 0;
      }
      node := Some(virtualNodes[sortedHashes[idx]]);
    }

    /** The first `count` nodes of the key's list, all of it if it is shorter, none twice; the first
        is the node of GetNode. */
    method GetNodes(key: string, count: int) returns (nodes: seq<string>)
      requires Valid()
      ensures nodes <= List(hash(key)) && Distinct(nodes)
      ensures count <= 0 ==> nodes == []
      ensures count > 0 ==> |nodes| == if count < |virtualNodes.Values| then count else |virtualNodes.Values|
      ensures count > 0 && virtualNodes != map[] ==>
                nodes != [] && nodes[0] == virtualNodes[Successor(sortedHashes, hash(key))]
      ensures nodes == Take(List(hash(key)), count)
    {
      PreferenceExact(virtualNodes, sortedHashes, hash(key));
      TakeExact(List(hash(key)), count);
      assert sortedHashes == [] <==> virtualNodes == map[] by {
        assert sortedHashes != [] ==> sortedHashes[0] in virtualNodes;
      }
      if |sortedHashes| == 0 || count <= 0 {
        return [];
      }
      var startIdx := Search(sortedHashes, hash(key));
      ghost var walk := Walk(sortedHashes, hash(key));
      WalkClockwise(sortedHashes, hash(key));
      forall i: nat | i < |walk| ensures walk[i] == sortedHashes[Wrap(startIdx, i, |sortedHashes|)] {
        WalkAt(sortedHashes, hash(key), i);
      }
      nodes := Collect(startIdx, count, walk);
    }

    /** The loop of GetNodes around the ring. */
    method Collect(startIdx: nat, count: nat, ghost walk: seq<Hash>) returns (nodes: seq<string>)
      requires startIdx <= |sortedHashes| == |walk|
      requires forall p :: p in walk ==> p in virtualNodes
      requires forall i: nat :: i < |walk| ==> walk[i] == sortedHashes[Wrap(startIdx, i, |sortedHashes|)]
      ensures nodes == Take(Dedup(Owners(virtualNodes, walk)), count)
    {
      hide Dedup, Owners, Wrap;
      ghost var all := Owners(virtualNodes, walk);
      DedupEmpty();
      nodes := [];
      var visited := {};
      var i := 0;
      while i < |sortedHashes| && |nodes| < count
        invariant 0 <= i <= |sortedHashes| && |nodes| <= count
        invariant nodes == Dedup(all[..i])
        invariant forall n :: n in visited <==> n in nodes
      {
        var virtualHash := sortedHashes[Wrap(startIdx, i, |sortedHashes|)];
        assert virtualHash == walk[i];
        var physicalNode := virtualNodes[virtualHash];
        OwnersNext(virtualNodes, walk, i);
        DedupAppend(all[..i], physicalNode);
        if physicalNode !in visited {
          nodes := nodes + [physicalNode];
          visited := visited + {physicalNode};
        }
        i := i + 1;
      }
      DedupPrefix(all, i);
      assert all[..|all|] == all;
    }
  }
}
