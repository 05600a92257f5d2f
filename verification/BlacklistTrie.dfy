/** The address blacklist: a 256-way trie over the bytes of an address, four levels
    deep for IPv4 and sixteen for IPv6, whose last level holds leaves. */
module BlacklistTrie {
  import opened Ids

  // One element of children[256], a void pointer in the source: nothing, the entry
  // one level down, or on the last level a leaf.
  datatype Slot = Null | Down(entry: Entry) | Leaf(port: int, md: seq<Octet>)

  class Entry {
    const children: array<Slot>

    // create_new_entry
    constructor ()
      ensures fresh(children) && children.Length == 256
      ensures forall i: nat | i < 256 :: children[i] == Null
    {
      children := new Slot[256](_ => Null);
    }
  }

  type Path = seq<Octet>
  type Nodes = map<Path, Entry>

  // ----- what the slots of one entry have to hold -----

  ghost predicate SlotOk(levels: nat, nodes: Nodes, members: set<Path>, p: Path, c: Octet, s: Slot)
  {
    if |p| + 1 < levels then s == if p + [c] in nodes then Down(nodes[p + [c]]) else Null
    else if p + [c] in members then s.Leaf? else s == Null
  }

  ghost predicate SlotsOk(levels: nat, nodes: Nodes, members: set<Path>, p: Path, slots: seq<Slot>)
  {
    && |slots| == 256 && |p| < levels
    && (p != [] ==> p[..|p| - 1] in nodes)
    && forall c: Octet :: SlotOk(levels, nodes, members, p, c, slots[c])
  }

  lemma SlotsCount(levels: nat, nodes: Nodes, members: set<Path>, p: Path, slots: seq<Slot>)
    requires SlotsOk(levels, nodes, members, p, slots)
    ensures |slots| == 256
  {}

  // A new empty entry at p + [c] changes what is due in slot c of p and nowhere else.
  lemma NewEntrySlots(levels: nat, nodes: Nodes, members: set<Path>, p: Path, c: Octet, e: Entry,
                      q: Path, slots: seq<Slot>)
    requires SlotsOk(levels, nodes, members, q, slots) && p in nodes && |p| + 1 < levels
    requires p + [c] !in nodes
    ensures var nodes' := nodes[p + [c] := e];
      SlotsOk(levels, nodes', members, q, if q == p then slots[c := Down(e)] else slots)
  {
    var nodes' := nodes[p + [c] := e];
    var slots' := if q == p then slots[c := Down(e)] else slots;
    forall d: Octet ensures SlotOk(levels, nodes', members, q, d, slots'[d]) {
      assert SlotOk(levels, nodes, members, q, d, slots[d]);
      if q + [d] == p + [c] {
        assert (q + [d])[..|q|] == q && (p + [c])[..|p|] == p;
      }
    }
  }

  lemma EmptyEntrySlots(levels: nat, nodes: Nodes, members: set<Path>, p: Path, c: Octet, e: Entry, slots: seq<Slot>)
    requires Rooted(levels, nodes, members) && p in nodes && p + [c] !in nodes && |p| + 1 < levels
    requires |slots| == 256 && forall i | 0 <= i < 256 :: slots[i] == Null
    ensures SlotsOk(levels, nodes[p + [c] := e], members, p + [c], slots)
  {
    var r := p + [c];
    assert r[..|r| - 1] == p;
    forall d: Octet ensures SlotOk(levels, nodes[r := e], members, r, d, slots[d]) {
      assert (r + [d])[..|r|] == r;
    }
  }

  // Paths are closed under taking prefixes, and members hang off the last level.
  ghost predicate Rooted(levels: nat, nodes: Nodes, members: set<Path>)
  {
    && (forall p | p in nodes :: |p| < levels && (p != [] ==> p[..|p| - 1] in nodes))
    && (forall a | a in members :: |a| == levels > 0 && a[..|a| - 1] in nodes)
  }

  // No two paths lead to the same array.
  ghost predicate Separate(nodes: Nodes)
  {
    forall p, q | p in nodes && q in nodes && p != q :: nodes[p].children != nodes[q].children
  }

  lemma Apart(nodes: Nodes, p: Path)
    requires Separate(nodes) && p in nodes
    ensures forall q | q in nodes && q != p :: nodes[q].children != nodes[p].children
  {}

  lemma NewEntryFits(levels: nat, nodes: Nodes, members: set<Path>, p: Path, c: Octet, e: Entry)
    requires Rooted(levels, nodes, members) && Separate(nodes) && p in nodes && |p| + 1 < levels
    requires p + [c] !in nodes && forall q | q in nodes :: nodes[q].children != e.children
    ensures Rooted(levels, nodes[p + [c] := e], members) && Separate(nodes[p + [c] := e])
  {
    assert (p + [c])[..|p|] == p;
  }

  // A leaf at p + [c] on the last level makes that address a member.
  lemma NewLeafSlots(levels: nat, nodes: Nodes, members: set<Path>, p: Path, c: Octet, leaf: Slot,
                     q: Path, slots: seq<Slot>)
    requires SlotsOk(levels, nodes, members, q, slots) && |p| + 1 == levels && leaf.Leaf?
    ensures SlotsOk(levels, nodes, members + {p + [c]}, q, if q == p then slots[c := leaf] else slots)
  {
    var members' := members + {p + [c]};
    var slots' := if q == p then slots[c := leaf] else slots;
    forall d: Octet ensures SlotOk(levels, nodes, members', q, d, slots'[d]) {
      assert SlotOk(levels, nodes, members, q, d, slots[d]);
      if q + [d] == p + [c] {
        assert (q + [d])[..|q|] == q && (p + [c])[..|p|] == p;
        assert (q + [d])[|q|] == d && (p + [c])[|p|] == c;
      }
    }
  }

  class Trie {
    const levels: nat
    var root: Entry?
    var count: nat
    ghost var nodes: Nodes             // the entry reached by each path
    ghost var members: set<Path>       // the addresses blacklisted
    ghost var Repr: set<object>

    ghost predicate Valid()
      reads this, Repr
      ensures Valid() ==> this in Repr
    {
      ValidBut(|members|)
    }

    // The invariant, with n as the counter
    ghost predicate ValidBut(n: nat)
      reads this, Repr
      ensures ValidBut(n) ==> this in Repr
    {
      && Skeleton()
      && Rooted(levels, nodes, members)
      && (forall p | p in nodes :: SlotsOk(levels, nodes, members, p, nodes[p].children[..]))
      && count == n
    }

    // The entries and their arrays
    ghost predicate Skeleton()
      reads this`root, this`nodes, this`Repr
      ensures Skeleton() ==> this in Repr && forall p | p in nodes :: nodes[p].children in Repr
    {
      && this in Repr && levels > 0
      && (if root == null then nodes == map[] else [] in nodes && nodes[[]] == root)
      && (forall p | p in nodes :: nodes[p].children in Repr)
      && Separate(nodes)
    }

    constructor (depth: nat)
      requires depth > 0
      ensures Valid() && fresh(Repr) && members == {} && levels == depth
    {
      levels, root, count, nodes, members, Repr := depth, null, 0, map[], {}, {this};
    }

    // Without entries there are no members.
    lemma NoRoot()
      requires Valid() && root == null
      ensures nodes == map[] && members == {}
    {
      assert forall a :: a !in members;
    }

    lemma SkeletonIs()
      requires Skeleton()
      ensures levels > 0 && Separate(nodes)
      ensures if root == null then nodes == map[] else [] in nodes && nodes[[]] == root
    {}

    lemma SlotIs(p: Path, c: Octet)
      requires Valid() && p in nodes
      ensures |p| < levels && nodes[p].children.Length == 256
      ensures SlotOk(levels, nodes, members, p, c, nodes[p].children[c])
    {
      hide SlotOk;
      assert SlotsOk(levels, nodes, members, p, nodes[p].children[..]);
    }

    lemma LastSlotIs(p: Path, c: Octet)
      requires Valid() && p in nodes && |p| + 1 == levels
      ensures nodes[p].children.Length == 256
      ensures nodes[p].children[c] == Null <==> p + [c] !in members
    {
      hide Rooted, Separate;
      SlotIs(p, c);
    }

    // One level of the walk of blacklist_blacklist_node: go down from the entry at
    // path p, to a new entry if there is none.
    method Descend(p: Path, c: Octet, prev: Entry) returns (next: Entry)
      requires Valid() && p in nodes && nodes[p] == prev && |p| + 1 < levels
      modifies Repr
      ensures Valid() && fresh(Repr - old(Repr)) && members == old(members)
      ensures p + [c] in nodes && nodes[p + [c]] == next
    {
      SlotIs(p, c);
      if prev.children[c] == Null {
        next := new Entry();
        AddEntry(p, c, prev, next);
      } else {
        next := prev.children[c].entry;
      }
    }

    method AddEntry(p: Path, c: Octet, prev: Entry, next: Entry)
      requires Valid() && p in nodes && nodes[p] == prev && |p| + 1 < levels && p + [c] !in nodes
      requires next.children.Length == 256 && forall i | 0 <= i < 256 :: next.children[i] == Null
      requires next.children !in Repr
      modifies this, prev.children
      ensures Valid() && Repr == old(Repr) + {next.children} && members == old(members)
      ensures nodes == old(nodes)[p + [c] := next]
    {
      hide SlotsOk, Rooted, Separate;
      SlotIs(p, c);
      NewEntryFits(levels, nodes, members, p, c, next);
      assert forall q | q in nodes && q != p :: nodes[q].children != prev.children by {
        Apart(nodes, p);
      }
      ghost var before, slots := nodes, prev.children[..];
      assert forall q | q in nodes :: SlotsOk(levels, nodes, members, q, nodes[q].children[..]);
      EmptyEntrySlots(levels, nodes, members, p, c, next, next.children[..]);
      prev.children[c] := Down(next);
      nodes := nodes[p + [c] := next];
      Repr := Repr + {next.children};
      forall q | q in nodes ensures SlotsOk(levels, nodes, members, q, nodes[q].children[..]) {
        if q != p + [c] {
          assert q == p ==> nodes[q].children[..] == slots[c := Down(next)];
          NewEntrySlots(levels, before, members, p, c, next, q,
                        if q == p then slots else before[q].children[..]);
        }
      }
    }

    // The last level of the walk: a leaf, counted if there was none.
    method PutLeaf(p: Path, c: Octet, prev: Entry, port: int, md: seq<Octet>)
      requires Valid() && p in nodes && nodes[p] == prev && |p| + 1 == levels
      modifies this, prev.children
      ensures Valid() && Repr == old(Repr) && members == old(members) + {p + [c]}
    {
      hide SlotsOk, SlotOk, Rooted, Separate;
      LastSlotIs(p, c);
      CountMember(members, p + [c]);
      if prev.children[c] == Null {
        count := count + 1;
      }
      SetLeaf(p, c, prev, Leaf(port, md), |members + {p + [c]}|);
    }

    // The assignment of the leaf, on a trie that has already counted it
    method SetLeaf(p: Path, c: Octet, prev: Entry, leaf: Slot, ghost n: nat)
      requires ValidBut(n) && p in nodes && nodes[p] == prev && |p| + 1 == levels && leaf.Leaf?
      modifies this`members, prev.children
      ensures ValidBut(n) && members == old(members) + {p + [c]}
    {
      hide SlotsOk, SlotOk, Rooted, Separate;
      NewMember(levels, nodes, members, p, c);
      assert forall q | q in nodes && q != p :: nodes[q].children != prev.children by {
        Apart(nodes, p);
      }
      ghost var before, slots := members, prev.children[..];
      SlotsCount(levels, nodes, members, p, slots);
      StoreLeaf(prev.children, c, leaf);
      members := members + {p + [c]};
      assert Skeleton() && Rooted(levels, nodes, members) && count == n;
      forall q | q in nodes ensures SlotsOk(levels, nodes, members, q, nodes[q].children[..]) {
        NewLeafSlots(levels, nodes, before, p, c, leaf, q, if q == p then slots else nodes[q].children[..]);
      }
      IsValid(n);
    }

    lemma IsValid(n: nat)
      requires Skeleton() && Rooted(levels, nodes, members) && count == n
      requires forall q | q in nodes :: SlotsOk(levels, nodes, members, q, nodes[q].children[..])
      ensures ValidBut(n)
    {
      hide SlotsOk, Rooted, Separate;
    }

    static method StoreLeaf(children: array<Slot>, c: Octet, leaf: Slot)
      requires children.Length == 256
      modifies children
      ensures children[..] == old(children[..])[c := leaf]
    {
      children[c] := leaf;
    }

    // The body of blacklist_blacklist_node for one address family
    method Insert(addr: seq<Octet>, port: int, md: seq<Octet>)
      requires Valid() && |addr| == levels
      modifies Repr
      ensures Valid() && fresh(Repr - old(Repr)) && members == old(members) + {addr}
    {
      hide Rooted, Separate, Skeleton, SlotsOk;
      if root == null {
        NoRoot();
        Plant();
      }
      SkeletonIs();
      var prev: Entry := root;
      var i := 1;
      while i < levels
        invariant 1 <= i <= levels == |addr| && Valid() && fresh(Repr - old(Repr))
        invariant members == old(members)
        invariant addr[..i - 1] in nodes && nodes[addr[..i - 1]] == prev
      {
        assert addr[..i] == addr[..i - 1] + [addr[i - 1]];
        prev := Descend(addr[..i - 1], addr[i - 1], prev);
        i := i + 1;
      }
      assert addr == addr[..i - 1] + [addr[i - 1]];
      PutLeaf(addr[..i - 1], addr[i - 1], prev, port, md);
    }

    // The first address of a family creates its root.
    method Plant()
      requires Valid() && root == null
      modifies this
      ensures Valid() && fresh(Repr - old(Repr)) && members == {} && root != null
    {
      root := new Entry();
      nodes := map[[] := root];
      Repr := Repr + {root.children};
    }

    // The walk of blacklist_blacklisted
    method Contains(addr: seq<Octet>) returns (found: bool)
      requires Valid() && |addr| == levels
      ensures found <==> addr in members
    {
      hide Separate, Rooted, SlotsOk, Skeleton;
      SkeletonIs();
      if root == null {
        NoRoot();
      }
      var entry := root;
      var i := 0;
      while i < levels
        invariant 0 <= i < levels || i == levels
        invariant entry != null ==> i < levels && addr[..i] in nodes && nodes[addr[..i]] == entry
        invariant entry == null ==> addr !in members
      {
        if entry == null {
          return false;
        }
        var pos := addr[i];
        SlotIs(addr[..i], pos);
        assert addr[..i + 1] == addr[..i] + [pos];
        if i == levels - 1 {
          assert addr[..i + 1] == addr;
          return entry.children[pos] != Null;
        }
        var s := entry.children[pos];
        if s == Null {
          MissingPath(levels, nodes, members, addr, i + 1);
          entry := null;
        } else {
          entry := s.entry;
        }
        i := i + 1;
      }
      assert entry == null;
      found := false;
    }
  }

  lemma CountMember(members: set<Path>, a: Path)
    ensures |members + {a}| == if a in members then |members| else |members| + 1
  {
    if a in members {
      assert members + {a} == members;
    }
  }

  lemma NewMember(levels: nat, nodes: Nodes, members: set<Path>, p: Path, c: Octet)
    requires Rooted(levels, nodes, members) && p in nodes && |p| + 1 == levels
    ensures Rooted(levels, nodes, members + {p + [c]})
  {
    assert (p + [c])[..|p|] == p;
  }

  // An address is not a member when some prefix of it has no entry.
  lemma {:induction false} MissingPath(levels: nat, nodes: Nodes, members: set<Path>, a: Path, i: nat)
    requires Rooted(levels, nodes, members) && i < levels == |a| && a[..i] !in nodes
    ensures a !in members
    decreases levels - i
  {
    if i + 1 < levels {
      assert a[..i + 1][..i] == a[..i];
      MissingPath(levels, nodes, members, a, i + 1);
    }
  }

  // ----- both families -----

  datatype SockAddr = In4(addr4: seq<Octet>, port: int) | In6(addr6: seq<Octet>, port: int) | Other

  predicate WellFormed(sa: SockAddr)
  {
    match sa
    case In4(a, _) => |a| == 4
    case In6(a, _) => |a| == 16
    case Other => true
  }

  class Blacklist {
    const ipv4: Trie
    const ipv6: Trie
    var enabled: bool

    ghost predicate Valid()
      reads this, ipv4, ipv6, ipv4.Repr, ipv6.Repr
    {
      && ipv4.Valid() && ipv6.Valid() && ipv4.levels == 4 && ipv6.levels == 16
      && ipv4.Repr !! ipv6.Repr && this !in ipv4.Repr && this !in ipv6.Repr
    }

    constructor ()
      ensures Valid() && enabled && ipv4.members == {} && ipv6.members == {}
      ensures fresh(ipv4) && fresh(ipv6) && fresh(ipv4.Repr) && fresh(ipv6.Repr)
    {
      ipv4 := new Trie(4);
      ipv6 := new Trie(16);
      enabled := true;
    }

    // blacklist_enable
    method Enable(enable: bool)
      requires Valid()
      modifies this
      ensures Valid() && enabled == enable
    {
      enabled := enable;
    }

    // blacklist_blacklist_node
    method BlacklistNode(sa: SockAddr, md: seq<Octet>)
      requires Valid() && WellFormed(sa)
      modifies ipv4.Repr, ipv6.Repr
      ensures Valid() && enabled == old(enabled)
      ensures fresh(ipv4.Repr - old(ipv4.Repr)) && fresh(ipv6.Repr - old(ipv6.Repr))
      ensures ipv4.members == old(ipv4.members) + (if enabled && sa.In4? then {sa.addr4} else {})
      ensures ipv6.members == old(ipv6.members) + (if enabled && sa.In6? then {sa.addr6} else {})
    {
      hide Trie.Valid;
      if !enabled {
        return;
      }
      match sa {
        case In4(addr, port) => ipv4.Insert(addr, port, md);
        case In6(addr, port) => ipv6.Insert(addr, port, md);
        case Other =>
      }
    }

    // blacklist_blacklisted: no answer but 0 for IPv6, whatever was blacklisted.
    method Blacklisted(sa: SockAddr) returns (r: bool)
      requires Valid() && WellFormed(sa)
      ensures r <==> enabled && sa.In4? && sa.addr4 in ipv4.members
    {
      hide Trie.Valid;
      if !enabled {
        return false;
      }
      match sa {
        case In4(addr, _) => r := ipv4.Contains(addr);
        case In6(_, _) => r := false;
        case Other => r := false;
      }
    }

    // blacklist_size
    method Size() returns (n4: nat, n6: nat, total: nat)
      requires Valid()
      ensures n4 == |ipv4.members| && n6 == |ipv6.members| && total == n4 + n6
    {
      n4, n6 := ipv4.count, ipv6.count;
      total := n4 + n6;
    }
  }

  // ----- whole runs -----

  datatype Op = Add(sa: SockAddr) | Switch(on: bool)

  // A client that runs any sequence of additions and switches: the answer for an
  // IPv4 address is whether it was added while the blacklist was enabled, whatever
  // the ports, and the counter is the number of such addresses.
  method Replay(ops: seq<Op>, query: SockAddr) returns (listed: bool, n4: nat)
    requires WellFormed(query) && forall op | op in ops :: op.Add? ==> WellFormed(op.sa)
    ensures listed <==> Enabled(ops) && query.In4? && query.addr4 in Added4(ops)
    ensures n4 == |Added4(ops)|
  {
    hide Trie.Valid;
    var b := new Blacklist();
    for i := 0 to |ops|
      invariant b.Valid() && fresh(b) && fresh(b.ipv4.Repr) && fresh(b.ipv6.Repr)
      invariant b.enabled == Enabled(ops[..i]) && b.ipv4.members == Added4(ops[..i])
    {
      assert ops[..i + 1][..i] == ops[..i];
      assert ops[i] in ops;
      match ops[i] {
        case Add(sa) => b.BlacklistNode(sa, []);
        case Switch(on) => b.Enable(on);
      }
    }
    assert ops[..|ops|] == ops;
    listed := b.Blacklisted(query);
    var n6, total;
    n4, n6, total := b.Size();
  }

  function Enabled(ops: seq<Op>): bool
  {
    if ops == [] then true
    else match ops[|ops| - 1]
      case Add(_) => Enabled(ops[..|ops| - 1])
      case Switch(on) => on
  }

  // The IPv4 addresses added while the blacklist was enabled
  function Added4(ops: seq<Op>): set<Path>
  {
    if ops == [] then {} else
      var so := ops[..|ops| - 1];
      match ops[|ops| - 1]
      case Add(sa) => if Enabled(so) && sa.In4? then Added4(so) + {sa.addr4} else Added4(so)
      case Switch(_) => Added4(so)
  }
}
