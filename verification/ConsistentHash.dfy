/** The consistent-hash ring of core/distributed_cache.go. Positions are 32-bit hashes, a key
    belongs to the first virtual node clockwise from its hash, and the hash itself is an
    arbitrary function. */
module ConsistentHash {

  const SPAN: int := 0x1_0000_0000

  type Hash = h: int | 0 <= h < SPAN

  type HashFunction = string -> Hash

  // ----- Clockwise distance -----

  function Dist(from: Hash, to: Hash): nat {
    if from <= to then to - from else to - from + SPAN
  }

  /** `p` is the first of `points` met clockwise from `h`, `h` itself included. */
  ghost predicate IsSuccessor(points: set<Hash>, h: Hash, p: Hash) {
    p in points && forall q :: q in points ==> Dist(h, p) <= Dist(h, q)
  }

  // ----- Sorted positions -----

  function Points(s: seq<Hash>): set<Hash> {
    set p | p in s
  }

  ghost predicate Sorted(s: seq<Hash>) {
    forall i, j :: 0 <= i < j < |s| ==> s[i] <= s[j]
  }

  function Insert(s: seq<Hash>, h: Hash): seq<Hash> {
    if s == [] || h <= s[0] then [h] + s else [s[0]] + Insert(s[1..], h)
  }

  /** What slices.Sort returns. */
  function Sort(s: seq<Hash>): seq<Hash> {
    if s == [] then [] else Insert(Sort(s[1..]), s[0])
  }

  lemma SortedFront(s: seq<Hash>, h: Hash)
    requires Sorted(s) && forall x :: x in s ==> h <= x
    ensures Sorted([h] + s)
  {
    forall k | 0 <= k < |s| ensures h <= s[k] {
      assert s[k] in s;
    }
  }

  lemma {:induction false} InsertSorts(s: seq<Hash>, h: Hash)
    requires Sorted(s)
    ensures Sorted(Insert(s, h)) && |Insert(s, h)| == |s| + 1
    ensures forall x :: x in Insert(s, h) <==> x == h || x in s
  {
    if s != [] {
      assert forall x :: x in s <==> x == s[0] || x in s[1..];
      assert forall x :: x in s ==> s[0] <= x;
      if h <= s[0] {
        SortedFront(s, h);
      } else {
        InsertSorts(s[1..], h);
        SortedFront(Insert(s[1..], h), s[0]);
      }
    }
  }

  lemma {:induction false} SortSorts(s: seq<Hash>)
    ensures Sorted(Sort(s)) && |Sort(s)| == |s|
    ensures forall x :: x in Sort(s) <==> x in s
  {
    if s != [] {
      SortSorts(s[1..]);
      InsertSorts(Sort(s[1..]), s[0]);
      assert forall x :: x in s <==> x == s[0] || x in s[1..];
    }
  }

  /** The first index holding a position not below `h`, or the length. */
  function LowerBound(s: seq<Hash>, h: Hash): (i: nat)
    ensures i <= |s|
    ensures forall k :: 0 <= k < i ==> s[k] < h
    ensures i < |s| ==> s[i] >= h
  {
    if s == [] || s[0] >= h then 0 else 1 + LowerBound(s[1..], h)
  }

  lemma {:induction false} LowerBoundIs(s: seq<Hash>, h: Hash, i: nat)
    requires i <= |s| && (forall k :: 0 <= k < i ==> s[k] < h) && (i < |s| ==> s[i] >= h)
    ensures LowerBound(s, h) == i
  {
    if i > 0 {
      assert s[0] < h;
      LowerBoundIs(s[1..], h, i - 1);
    }
  }

  /** sort.Search with the guard the source passes it. */
  method Search(s: seq<Hash>, h: Hash) returns (i: nat)
    requires Sorted(s)
    ensures i == LowerBound(s, h)
  {
    var lo, hi := 0, |s|;
    while lo < hi
      invariant lo <= hi <= |s|
      invariant forall k :: 0 <= k < lo ==> s[k] < h
      invariant forall k :: hi <= k < |s| ==> s[k] >= h
    {
      var mid := (lo + hi) / 2;
      if s[mid] >= h {
        hi := mid;
      } else {
        lo := mid + 1;
      }
    }
    i := lo;
    LowerBoundIs(s, h, i);
  }

  /** The position that serves `h`, wrapping past the last one. */
  function Successor(s: seq<Hash>, h: Hash): Hash
    requires s != []
  {
    var i := LowerBound(s, h);
    s[if i == |s| then 0 else i]
  }

  lemma SuccessorIsFirst(s: seq<Hash>, h: Hash)
    requires Sorted(s) && s != []
    ensures IsSuccessor(Points(s), h, Successor(s, h))
  {
    var i := LowerBound(s, h);
    forall q | q in Points(s) ensures Dist(h, Successor(s, h)) <= Dist(h, q) {
      var k :| 0 <= k < |s| && s[k] == q;
    }
  }

  lemma SuccessorUnique(points: set<Hash>, h: Hash, p: Hash, q: Hash)
    requires IsSuccessor(points, h, p) && IsSuccessor(points, h, q)
    ensures p == q
  {
  }

  // ----- The ring -----

  /** HashRing and SortedHashes. */
  datatype Ring = Ring(owners: map<Hash, string>, sorted: seq<Hash>)

  const EMPTY := Ring(map[], [])

  function Digits(n: nat): string {
    if n < 10 then [('0' as int + n) as char] else Digits(n / 10) + [('0' as int + n % 10) as char]
  }

  /** The label of a virtual node. */
  function Label(node: string, i: nat): string {
    node + "#" + Digits(i)
  }

  lemma {:induction false} DigitsPlain(n: nat)
    ensures Digits(n) != [] && forall i :: 0 <= i < |Digits(n)| ==> '0' <= Digits(n)[i] <= '9'
  {
    if n >= 10 {
      DigitsPlain(n / 10);
    }
  }

  lemma {:induction false} DigitsInjective(n: nat, m: nat)
    requires Digits(n) == Digits(m)
    ensures n == m
  {
    DigitsPlain(n / 10);
    DigitsPlain(m / 10);
    if n >= 10 && m >= 10 {
      var s, t := Digits(n), Digits(m);
      assert s[..|s| - 1] == Digits(n / 10) && t[..|t| - 1] == Digits(m / 10);
      assert s[|s| - 1] == t[|t| - 1];
      DigitsInjective(n / 10, m / 10);
    }
  }

  /** The last mark in a label ends the name. */
  lemma LabelMark(n: string, i: nat)
    ensures var a := Label(n, i);
            && |n| < |a| && a[|n|] == '#' && (forall x :: |n| < x < |a| ==> a[x] != '#')
            && a[..|n|] == n && a[|n| + 1..] == Digits(i)
  {
    DigitsPlain(i);
    hide Digits;
    var a := Label(n, i);
    forall x | |n| < x < |a| ensures a[x] != '#' {
      assert a[x] == Digits(i)[x - |n| - 1];
    }
  }

  /** Virtual nodes have labels of their own: whatever the node is called, the label tells it and the
      number. So positions can clash only by the hash. */
  lemma LabelInjective(n: string, i: nat, m: string, j: nat)
    requires Label(n, i) == Label(m, j)
    ensures n == m && i == j
  {
    LabelMark(n, i);
    LabelMark(m, j);
    hide Label, Digits;
    DigitsInjective(i, j);
  }

  function VirtualHashes(hash: HashFunction, node: string, count: nat): (r: seq<Hash>)
    ensures |r| == count && forall i :: 0 <= i < count ==> r[i] == hash(Label(node, i))
  {
    seq<Hash>(count, i requires 0 <= i < count => hash(Label(node, i)))
  }

  function Claim(owners: map<Hash, string>, hashes: seq<Hash>, node: string): map<Hash, string> {
    owners + map h | h in hashes :: node
  }

  lemma ClaimStep(owners: map<Hash, string>, hashes: seq<Hash>, i: nat, node: string)
    requires i < |hashes|
    ensures Claim(owners, hashes[..i + 1], node) == Claim(owners, hashes[..i], node)[hashes[i] := node]
  {
    assert hashes[..i + 1] == hashes[..i] + [hashes[i]];
    assert forall h :: h in hashes[..i + 1] <==> h in hashes[..i] || h == hashes[i];
  }

  /** addNodeToHashRing: on a collision the new node takes the position over. */
  function AddTo(ring: Ring, hash: HashFunction, count: nat, node: string): Ring {
    var hashes := VirtualHashes(hash, node, count);
    Ring(Claim(ring.owners, hashes, node), Sort(ring.sorted + hashes))
  }

  function Surviving(s: seq<Hash>, owners: map<Hash, string>): seq<Hash> {
    if s == [] then []
    else (if s[0] in owners && owners[s[0]] != "" then [s[0]] else []) + Surviving(s[1..], owners)
  }

  function Without(owners: map<Hash, string>, node: string): map<Hash, string> {
    map h | h in owners && owners[h] != node :: owners[h]
  }

  /** removeNodeFromHashRing: a position survives if the map still names an owner other than "". */
  function RemoveFrom(ring: Ring, node: string): Ring {
    var owners := Without(ring.owners, node);
    Ring(owners, Surviving(ring.sorted, owners))
  }

  /** Reading a Go map: a missing position has the owner "". */
  function OwnerAt(owners: map<Hash, string>, h: Hash): string {
    if h in owners then owners[h] else ""
  }

  /** getNodeForKeyUnsafe on a hash. The source indexes an empty list here and panics; only
      callers that know better look at that case. */
  function Route(ring: Ring, h: Hash): string {
    if ring.sorted == [] then "" else OwnerAt(ring.owners, Successor(ring.sorted, h))
  }

  /** Routing a key. */
  function Router(ring: Ring, hash: HashFunction): string -> string {
    key => Route(ring, hash(key))
  }

  ghost predicate Named(owners: map<Hash, string>) {
    forall h :: h in owners ==> owners[h] != ""
  }

  ghost predicate Consistent(ring: Ring) {
    && Sorted(ring.sorted)
    && (forall h :: h in ring.sorted <==> h in ring.owners)
  }

  lemma {:induction false} SurvivingIn(s: seq<Hash>, owners: map<Hash, string>, h: Hash)
    ensures h in Surviving(s, owners) <==> h in s && h in owners && owners[h] != ""
  {
    if s != [] {
      SurvivingIn(s[1..], owners, h);
      assert h in s <==> h == s[0] || h in s[1..];
    }
  }

  lemma {:induction false} SurvivingExact(s: seq<Hash>, owners: map<Hash, string>)
    requires Sorted(s)
    ensures Sorted(Surviving(s, owners))
    ensures forall h :: h in Surviving(s, owners) <==> h in s && h in owners && owners[h] != ""
  {
    forall h ensures h in Surviving(s, owners) <==> h in s && h in owners && owners[h] != "" {
      SurvivingIn(s, owners, h);
    }
    if s != [] {
      var rest := Surviving(s[1..], owners);
      SurvivingExact(s[1..], owners);
      assert forall x :: x in s[1..] ==> s[0] <= x;
      SortedFront(rest, s[0]);
      assert Surviving(s, owners) == rest || Surviving(s, owners) == [s[0]] + rest;
    }
  }

  lemma {:induction false} AddConsistent(ring: Ring, hash: HashFunction, count: nat, node: string)
    requires Consistent(ring)
    ensures Consistent(AddTo(ring, hash, count, node))
    ensures node != "" && Named(ring.owners) ==> Named(AddTo(ring, hash, count, node).owners)
  {
    var hashes := VirtualHashes(hash, node, count);
    SortSorts(ring.sorted + hashes);
  }

  /** Removing a node keeps list and map in step exactly when no surviving position belongs to
      the node named "". */
  lemma RemoveConsistentIff(ring: Ring, node: string)
    requires Consistent(ring)
    ensures Consistent(RemoveFrom(ring, node)) <==> Named(Without(ring.owners, node))
  {
    SurvivingExact(ring.sorted, Without(ring.owners, node));
  }

  lemma RouteSuccessor(ring: Ring, h: Hash)
    requires Consistent(ring) && ring.sorted != []
    ensures IsSuccessor(ring.owners.Keys, h, Successor(ring.sorted, h))
  {
    SuccessorIsFirst(ring.sorted, h);
    assert Points(ring.sorted) == ring.owners.Keys;
  }

  /** The route is the owner of the first position clockwise, however the ring came about. */
  lemma RouteIs(ring: Ring, h: Hash, p: Hash)
    requires Consistent(ring) && ring.sorted != [] && IsSuccessor(ring.owners.Keys, h, p)
    ensures Route(ring, h) == ring.owners[p]
  {
    RouteSuccessor(ring, h);
    SuccessorUnique(ring.owners.Keys, h, p, Successor(ring.sorted, h));
  }

  /** Rings that are in step and agree on the owners route alike. */
  lemma SameOwnersSameRoute(a: Ring, b: Ring, h: Hash)
    requires Consistent(a) && Consistent(b) && a.owners == b.owners
    ensures Route(a, h) == Route(b, h)
    ensures a.sorted == [] <==> b.sorted == []
  {
    assert a.sorted != [] ==> a.sorted[0] in a.owners && a.sorted[0] in b.sorted;
    assert b.sorted != [] ==> b.sorted[0] in b.owners && b.sorted[0] in a.sorted;
    if a.sorted != [] {
      RouteSuccessor(a, h);
      RouteIs(b, h, Successor(a.sorted, h));
    }
  }

  // ----- Minimal disruption, collisions included -----

  /** Adding a node moves a key to the new node or not at all. */
  lemma AddDisruption(ring: Ring, hash: HashFunction, count: nat, node: string, h: Hash)
    requires Consistent(ring) && ring.sorted != []
    ensures var after := AddTo(ring, hash, count, node);
            && Consistent(after) && after.sorted != []
            && (Route(after, h) == Route(ring, h) || Route(after, h) == node)
  {
    var after := AddTo(ring, hash, count, node);
    AddConsistent(ring, hash, count, node);
    assert ring.sorted[0] in ring.owners && ring.sorted[0] in after.owners;
    RouteSuccessor(after, h);
    var p := Successor(after.sorted, h);
    if p !in VirtualHashes(hash, node, count) {
      assert IsSuccessor(ring.owners.Keys, h, p);
      RouteIs(ring, h, p);
    }
  }

  lemma RouteIsOwner(ring: Ring, h: Hash)
    requires Consistent(ring) && ring.sorted != []
    ensures exists p :: p in ring.owners && ring.owners[p] == Route(ring, h)
  {
    RouteSuccessor(ring, h);
    var p := Successor(ring.sorted, h);
    assert p in ring.owners && ring.owners[p] == Route(ring, h);
  }

  /** With every position gone, every key belonged to the node that left. */
  lemma LastNodeOwnsAll(ring: Ring, node: string, h: Hash)
    requires Consistent(ring) && Named(ring.owners) && RemoveFrom(ring, node).sorted == []
    ensures ring.sorted != [] ==> Route(ring, h) == node
  {
    SurvivingExact(ring.sorted, Without(ring.owners, node));
    if ring.sorted != [] {
      RouteSuccessor(ring, h);
      var p := Successor(ring.sorted, h);
      assert p in ring.sorted && p !in RemoveFrom(ring, node).sorted;
    }
  }

  /** Removing a node moves only the keys it owned. */
  lemma RemoveDisruption(ring: Ring, node: string, h: Hash)
    requires Consistent(ring) && Named(ring.owners) && ring.sorted != []
    requires RemoveFrom(ring, node).sorted != []
    ensures var after := RemoveFrom(ring, node);
            && Consistent(after) && Route(after, h) != node
            && (Route(ring, h) != node ==> Route(after, h) == Route(ring, h))
  {
    var after := RemoveFrom(ring, node);
    RemoveConsistentIff(ring, node);
    RouteSuccessor(ring, h);
    RouteSuccessor(after, h);
    if Route(ring, h) != node {
      assert IsSuccessor(after.owners.Keys, h, Successor(ring.sorted, h));
      RouteIs(after, h, Successor(ring.sorted, h));
    }
  }

  // ----- Who held the new positions before -----

  /** findResponsibleNodeInOldRing: the old successor, looked up in the current map. */
  function OldOwner(owners: map<Hash, string>, oldSorted: seq<Hash>, h: Hash): string {
    if oldSorted == [] then "" else OwnerAt(owners, Successor(oldSorted, h))
  }

  /** The nodes whose stores the migration visits: the old owner of each position of `node`. */
  ghost predicate Scans(owners: map<Hash, string>, oldSorted: seq<Hash>, node: string, n: string) {
    exists p :: p in owners && owners[p] == node && OldOwner(owners, oldSorted, p) == n
  }

  /** If the new node takes no occupied position, every hash it takes over had as its old owner
      the old owner of the very position it now meets: scanning those owners misses nothing. */
  lemma IncomingScanned(ring: Ring, hash: HashFunction, count: nat, node: string, h: Hash)
    requires Consistent(ring) && ring.sorted != []
    requires forall p :: p in VirtualHashes(hash, node, count) ==> p !in ring.owners
    requires Route(ring, h) != node && Route(AddTo(ring, hash, count, node), h) == node
    ensures Scans(AddTo(ring, hash, count, node).owners, ring.sorted, node, Route(ring, h))
  {
    var after := AddTo(ring, hash, count, node);
    AddDisruption(ring, hash, count, node, h);
    RouteSuccessor(ring, h);
    RouteSuccessor(after, h);
    var p, q := Successor(after.sorted, h), Successor(ring.sorted, h);
    assert Dist(h, p) <= Dist(h, q) by { assert q in after.owners; }
    SuccessorIsFirst(ring.sorted, p);
    assert IsSuccessor(ring.owners.Keys, p, q);
    RouteIs(ring, p, q);
    SuccessorUnique(ring.owners.Keys, p, q, Successor(ring.sorted, p));
    assert after.owners[p] == node && OldOwner(after.owners, ring.sorted, p) == Route(ring, h);
  }

  /** A position taken over from another node yields no scan: its old owner now reads as the new
      node itself, so the keys behind it are found only through another position. */
  lemma TakenScansNothing(ring: Ring, hash: HashFunction, count: nat, node: string, p: Hash)
    requires Consistent(ring) && p in VirtualHashes(hash, node, count) && p in ring.owners
    ensures OldOwner(AddTo(ring, hash, count, node).owners, ring.sorted, p) == node
  {
    assert p in ring.sorted;
    RouteSuccessor(ring, p);
    assert IsSuccessor(ring.owners.Keys, p, p);
    SuccessorUnique(ring.owners.Keys, p, p, Successor(ring.sorted, p));
  }

  // ----- The ring is a function of the membership -----

  /** Virtual nodes of different members of `names` hash apart. */
  ghost predicate CollisionFree(hash: HashFunction, count: nat, names: set<string>) {
    forall n, m, i, j :: (n in names && m in names && 0 <= i < count && 0 <= j < count
                          && hash(Label(n, i)) == hash(Label(m, j))) ==> n == m
  }

  /** `h` is a virtual node of `node`. */
  ghost predicate Claims(hash: HashFunction, count: nat, node: string, h: Hash) {
    h in VirtualHashes(hash, node, count)
  }

  /** Every position is owned by a member that claims it, and every claim is a position. */
  ghost predicate IsRingOf(owners: map<Hash, string>, hash: HashFunction, count: nat, members: set<string>) {
    && (forall h :: h in owners ==> owners[h] in members && Claims(hash, count, owners[h], h))
    && (forall n, h :: n in members && Claims(hash, count, n, h) ==> h in owners && owners[h] == n)
  }

  lemma ClaimsApart(hash: HashFunction, count: nat, names: set<string>, n: string, m: string, h: Hash)
    requires CollisionFree(hash, count, names) && n in names && m in names
    requires Claims(hash, count, n, h) && Claims(hash, count, m, h)
    ensures n == m
  {
    var i :| 0 <= i < count && VirtualHashes(hash, n, count)[i] == h;
    var j :| 0 <= j < count && VirtualHashes(hash, m, count)[j] == h;
    assert hash(Label(n, i)) == hash(Label(m, j));
  }

  lemma AddRingOf(ring: Ring, hash: HashFunction, count: nat, members: set<string>, node: string)
    requires CollisionFree(hash, count, members + {node})
    requires IsRingOf(ring.owners, hash, count, members)
    ensures IsRingOf(AddTo(ring, hash, count, node).owners, hash, count, members + {node})
  {
    var after := AddTo(ring, hash, count, node).owners;
    forall n, h | n in members + {node} && Claims(hash, count, n, h) ensures h in after && after[h] == n {
      if Claims(hash, count, node, h) {
        ClaimsApart(hash, count, members + {node}, n, node, h);
      }
    }
  }

  lemma RemoveRingOf(ring: Ring, hash: HashFunction, count: nat, members: set<string>, node: string)
    requires IsRingOf(ring.owners, hash, count, members)
    ensures IsRingOf(RemoveFrom(ring, node).owners, hash, count, members - {node})
  {
  }

  lemma RingOfUnique(a: map<Hash, string>, b: map<Hash, string>, hash: HashFunction, count: nat, members: set<string>)
    requires IsRingOf(a, hash, count, members) && IsRingOf(b, hash, count, members)
    ensures a == b
  {
    assert forall h :: h in a ==> h in b && a[h] == b[h];
    assert forall h :: h in b ==> h in a;
  }

  lemma RingOfNamed(owners: map<Hash, string>, hash: HashFunction, count: nat, members: set<string>)
    requires IsRingOf(owners, hash, count, members) && "" !in members
    ensures Named(owners)
  {
  }

  // ----- Runs of membership changes -----

  datatype Change = Add(node: string) | Remove(node: string)

  datatype Membership = Membership(ring: Ring, members: set<string>)

  function Names(changes: seq<Change>): set<string> {
    set c | c in changes :: c.node
  }

  /** AddNode and RemoveNode as the ring sees them; removing a non-member is an error without effect. */
  function Step(m: Membership, hash: HashFunction, count: nat, change: Change): Membership {
    match change
    case Add(n) => Membership(AddTo(m.ring, hash, count, n), m.members + {n})
    case Remove(n) =>
      if n in m.members then Membership(RemoveFrom(m.ring, n), m.members - {n}) else m
  }

  function Evolve(hash: HashFunction, count: nat, changes: seq<Change>): Membership {
    if changes == [] then Membership(EMPTY, {})
    else Step(Evolve(hash, count, changes[..|changes| - 1]), hash, count, changes[|changes| - 1])
  }

  lemma EvolveNext(hash: HashFunction, count: nat, changes: seq<Change>, c: Change)
    ensures Evolve(hash, count, changes + [c]) == Step(Evolve(hash, count, changes), hash, count, c)
  {
    assert (changes + [c])[..|changes|] == changes;
  }

  /** After any run of additions and removals, repeats included, the ring holds exactly the
      virtual nodes of the current members, in a sorted list in step with the map. */
  lemma {:induction false} RingIsMembership(hash: HashFunction, count: nat, changes: seq<Change>)
    requires "" !in Names(changes) && CollisionFree(hash, count, Names(changes))
    ensures var m := Evolve(hash, count, changes);
            && m.members <= Names(changes)
            && Consistent(m.ring)
            && IsRingOf(m.ring.owners, hash, count, m.members)
  {
    if changes != [] {
      var last := |changes| - 1;
      var before := Evolve(hash, count, changes[..last]);
      assert changes[last].node in Names(changes) by { assert changes[last] in changes; }
      assert Names(changes[..last]) <= Names(changes) by {
        assert forall c :: c in changes[..last] ==> c in changes;
      }
      RingIsMembership(hash, count, changes[..last]);
      match changes[last] {
        case Add(n) =>
          AddConsistent(before.ring, hash, count, n);
          AddRingOf(before.ring, hash, count, before.members, n);
        case Remove(n) =>
          RingOfNamed(before.ring.owners, hash, count, before.members);
          RemoveConsistentIff(before.ring, n);
          RemoveRingOf(before.ring, hash, count, before.members, n);
      }
    }
  }

  /** Collisions or not, as long as no node is called "" list and map stay in step. */
  lemma {:induction false} EvolveNamed(hash: HashFunction, count: nat, changes: seq<Change>)
    requires "" !in Names(changes)
    ensures var m := Evolve(hash, count, changes);
            Consistent(m.ring) && Named(m.ring.owners) && "" !in m.members
  {
    if changes != [] {
      var last := |changes| - 1;
      var before := Evolve(hash, count, changes[..last]);
      assert changes[last].node in Names(changes) by { assert changes[last] in changes; }
      assert Names(changes[..last]) <= Names(changes) by {
        assert forall c :: c in changes[..last] ==> c in changes;
      }
      EvolveNamed(hash, count, changes[..last]);
      AddConsistent(before.ring, hash, count, changes[last].node);
      RemoveConsistentIff(before.ring, changes[last].node);
    }
  }

  /** Two histories that end with the same members route every key alike: incremental updates
      equal a rebuild, and the order in which a Go map lists the nodes does not matter. */
  lemma {:induction false} RoutingAgrees(hash: HashFunction, count: nat, a: seq<Change>, b: seq<Change>, h: Hash)
    requires "" !in Names(a) + Names(b)
    requires CollisionFree(hash, count, Names(a)) && CollisionFree(hash, count, Names(b))
    requires Evolve(hash, count, a).members == Evolve(hash, count, b).members
    requires Evolve(hash, count, a).ring.sorted != []
    ensures var (x, y) := (Evolve(hash, count, a).ring, Evolve(hash, count, b).ring);
            && x.owners == y.owners
            && Consistent(x) && Consistent(y) && y.sorted != []
            && Route(x, h) == Route(y, h)
  {
    RingIsMembership(hash, count, a);
    RingIsMembership(hash, count, b);
    var x, y := Evolve(hash, count, a), Evolve(hash, count, b);
    RingOfUnique(x.ring.owners, y.ring.owners, hash, count, x.members);
    assert x.ring.sorted[0] in y.ring.owners;
    RouteSuccessor(x.ring, h);
    RouteIs(y.ring, h, Successor(x.ring.sorted, h));
  }

  lemma SurvivingFront(s: seq<Hash>, owners: map<Hash, string>)
    requires s != []
    ensures Surviving(s, owners)
            == if s[0] in owners && owners[s[0]] != "" then [s[0]] + Surviving(s[1..], owners)
               else Surviving(s[1..], owners)
  {
  }

  lemma InsertAfter(first: Hash, s: seq<Hash>, h: Hash)
    requires first < h
    ensures Insert([first] + s, h) == [first] + Insert(s, h)
  {
    assert ([first] + s)[1..] == s;
  }

  lemma InsertBefore(s: seq<Hash>, h: Hash)
    requires forall x :: x in s ==> h <= x
    ensures Insert(s, h) == [h] + s
  {
    assert s != [] ==> s[0] in s;
  }

  lemma {:induction false} SurvivingInsert(s: seq<Hash>, h: Hash, owners: map<Hash, string>)
    requires Sorted(s)
    ensures Surviving(Insert(s, h), owners)
            == if h in owners && owners[h] != "" then Insert(Surviving(s, owners), h) else Surviving(s, owners)
  {
    if s == [] || h <= s[0] {
      assert ([h] + s)[1..] == s;
      SurvivingFront([h] + s, owners);
      SurvivingExact(s, owners);
      InsertBefore(Surviving(s, owners), h);
    } else {
      hide Surviving;
      var rest := Insert(s[1..], h);
      assert ([s[0]] + rest)[1..] == rest;
      SurvivingInsert(s[1..], h, owners);
      SurvivingFront(s, owners);
      SurvivingFront([s[0]] + rest, owners);
      InsertAfter(s[0], Surviving(s[1..], owners), h);
    }
  }

  lemma {:induction false} SurvivingSort(s: seq<Hash>, owners: map<Hash, string>)
    ensures Surviving(Sort(s), owners) == Sort(Surviving(s, owners))
  {
    if s != [] {
      SortSorts(s[1..]);
      SurvivingSort(s[1..], owners);
      SurvivingInsert(Sort(s[1..]), s[0], owners);
      SurvivingFront(s, owners);
      assert ([s[0]] + Surviving(s[1..], owners))[1..] == Surviving(s[1..], owners);
    }
  }

  lemma {:induction false} SurvivingConcat(s: seq<Hash>, t: seq<Hash>, owners: map<Hash, string>)
    ensures Surviving(s + t, owners) == Surviving(s, owners) + Surviving(t, owners)
  {
    if s == [] {
      assert s + t == t;
    } else {
      assert (s + t)[1..] == s[1..] + t;
      SurvivingConcat(s[1..], t, owners);
    }
  }

  lemma {:induction false} SortIdle(s: seq<Hash>)
    requires Sorted(s)
    ensures Sort(s) == s
  {
    if s != [] {
      SortIdle(s[1..]);
    }
  }

  lemma {:induction false} SurvivingAll(s: seq<Hash>, owners: map<Hash, string>, all: bool)
    requires forall h :: h in s ==> ((h in owners && owners[h] != "") <==> all)
    ensures Surviving(s, owners) == if all then s else []
  {
    if s != [] {
      assert s[0] in s && forall h :: h in s[1..] ==> h in s;
      SurvivingAll(s[1..], owners, all);
    }
  }

  /** Adding a node and removing it again restores map and list exactly when the node brought in no
      position that was taken. */
  lemma AddRemoveRestores(ring: Ring, hash: HashFunction, count: nat, node: string)
    requires Consistent(ring) && Named(ring.owners) && forall h :: h in ring.owners ==> ring.owners[h] != node
    ensures RemoveFrom(AddTo(ring, hash, count, node), node) == ring
            <==> forall h :: h in VirtualHashes(hash, node, count) ==> h !in ring.owners
    ensures RemoveFrom(AddTo(ring, hash, count, node), node).owners == ring.owners
            <==> forall h :: h in VirtualHashes(hash, node, count) ==> h !in ring.owners
  {
    var hashes := VirtualHashes(hash, node, count);
    var after := RemoveFrom(AddTo(ring, hash, count, node), node);
    if h :| h in hashes && h in ring.owners {
      assert h !in after.owners;
    } else {
      assert forall h :: h in after.owners <==> h in ring.owners;
      assert after.owners == ring.owners;
      SurvivingSort(ring.sorted + hashes, ring.owners);
      SurvivingConcat(ring.sorted, hashes, ring.owners);
      SurvivingAll(ring.sorted, ring.owners, true);
      SurvivingAll(hashes, ring.owners, false);
      assert ring.sorted + [] == ring.sorted;
      SortIdle(ring.sorted);
    }
  }

  /** A node called "" and one removal: its position leaves the list but not the map, and the ring has
      nothing to search although a member owns a position. */
  lemma EmptyNameUnlisted()
    ensures var hash: HashFunction := key => if key == "#0" then 1 else 2;
            var ring := RemoveFrom(Build(hash, 1, ["", "A"]), "A");
            ring.owners == map[1 := ""] && !Consistent(ring) && forall h :: h !in ring.sorted
  {
    var hash: HashFunction := key => if key == "#0" then 1 else 2;
    hide Build, RemoveFrom, Consistent;
    BuildSorted(hash, 1, ["", "A"]);
    TwoPositions(hash);
    Unlisted(Build(hash, 1, ["", "A"]));
  }

  lemma Unlisted(ring: Ring)
    requires Consistent(ring) && ring.owners == map[1 := "", 2 := "A"]
    ensures var after := RemoveFrom(ring, "A");
            after.owners == map[1 := ""] && !Consistent(after) && forall h :: h !in after.sorted
  {
    assert Without(ring.owners, "A") == map[1 := ""];
    SurvivingExact(ring.sorted, map[1 := ""]);
    hide Surviving;
    assert 1 in RemoveFrom(ring, "A").owners;
  }

  lemma TwoPositions(hash: HashFunction)
    requires hash == (key => if key == "#0" then 1 else 2)
    ensures Build(hash, 1, ["", "A"]).owners == map[1 := "", 2 := "A"]
  {
    assert ["", "A"][..1] == [""] && [""][..0] == [];
    assert Label("", 0) == "#0" && Label("A", 0)[0] == 'A';
    assert VirtualHashes(hash, "", 1) == [1] && VirtualHashes(hash, "A", 1) == [2];
    hide Label, VirtualHashes, Sort;
    assert Build(hash, 1, [""]).owners == map[1 := ""];
  }

  // ----- Construction -----

  /** buildHashRing over the nodes in the given order. */
  function Build(hash: HashFunction, count: nat, nodes: seq<string>): Ring {
    if nodes == [] then EMPTY
    else AddTo(Build(hash, count, nodes[..|nodes| - 1]), hash, count, nodes[|nodes| - 1])
  }

  lemma {:induction false} BuildSorted(hash: HashFunction, count: nat, nodes: seq<string>)
    ensures Consistent(Build(hash, count, nodes))
  {
    if nodes != [] {
      BuildSorted(hash, count, nodes[..|nodes| - 1]);
      AddConsistent(Build(hash, count, nodes[..|nodes| - 1]), hash, count, nodes[|nodes| - 1]);
    }
  }

  function Adds(nodes: seq<string>): seq<Change> {
    seq(|nodes|, i requires 0 <= i < |nodes| => Add(nodes[i]))
  }

  lemma AddsNames(nodes: seq<string>)
    ensures Names(Adds(nodes)) == set n | n in nodes
  {
    forall n | n in nodes ensures n in Names(Adds(nodes)) {
      var i :| 0 <= i < |nodes| && nodes[i] == n;
      assert Adds(nodes)[i] == Add(n);
    }
  }

  lemma {:induction false} BuildIsRun(hash: HashFunction, count: nat, nodes: seq<string>)
    ensures Evolve(hash, count, Adds(nodes)).ring == Build(hash, count, nodes)
    ensures Evolve(hash, count, Adds(nodes)).members == set n | n in nodes
  {
    if nodes != [] {
      var last := |nodes| - 1;
      BuildIsRun(hash, count, nodes[..last]);
      assert Adds(nodes)[..last] == Adds(nodes[..last]) && Adds(nodes)[last] == Add(nodes[last]);
      assert forall n :: n in nodes <==> n in nodes[..last] || n == nodes[last];
    }
  }

  lemma BuildIsRing(hash: HashFunction, count: nat, nodes: seq<string>)
    requires "" !in nodes && CollisionFree(hash, count, set n | n in nodes)
    ensures var ring := Build(hash, count, nodes);
            Consistent(ring) && Named(ring.owners) && IsRingOf(ring.owners, hash, count, set n | n in nodes)
  {
    hide Evolve, Build, CollisionFree, Consistent, IsRingOf, Adds;
    AddsNames(nodes);
    BuildIsRun(hash, count, nodes);
    RingIsMembership(hash, count, Adds(nodes));
    EvolveNamed(hash, count, Adds(nodes));
  }

  lemma SameMembers(a: seq<string>, b: seq<string>)
    requires (set n | n in a) == (set n | n in b)
    ensures forall n :: n in a <==> n in b
  {
    var x, y := set n | n in a, set n | n in b;
    forall n ensures n in a <==> n in b {
      assert n in x <==> n in y;
    }
  }

  lemma BuildNotEmpty(hash: HashFunction, count: nat, nodes: seq<string>)
    requires "" !in nodes && CollisionFree(hash, count, set n | n in nodes) && nodes != [] && count > 0
    ensures Build(hash, count, nodes).sorted != []
  {
    BuildIsRing(hash, count, nodes);
    hide Build;
    var first := VirtualHashes(hash, nodes[0], count)[0];
    assert Claims(hash, count, nodes[0], first) && nodes[0] in set n | n in nodes;
    assert first in Build(hash, count, nodes).owners;
  }

  /** Processes that list the same nodes in different orders build the same map and route alike. */
  lemma BuildOrderIrrelevant(hash: HashFunction, count: nat, a: seq<string>, b: seq<string>, h: Hash)
    requires (set n | n in a) == (set n | n in b) && "" !in a
    requires CollisionFree(hash, count, set n | n in a)
    ensures Build(hash, count, a).owners == Build(hash, count, b).owners
    ensures Route(Build(hash, count, a), h) == Route(Build(hash, count, b), h)
  {
    SameMembers(a, b);
    BuildIsRing(hash, count, a);
    BuildIsRing(hash, count, b);
    var x, y := Build(hash, count, a), Build(hash, count, b);
    hide Build, Route;
    RingOfUnique(x.owners, y.owners, hash, count, set n | n in a);
    SameOwnersSameRoute(x, y, h);
  }
}
