/** Ratings of lookup results: for every info hash and target address, how many
    different senders named that target, as far as a Bloom filter can tell. */
module Rating {
  import opened Ids
  import opened Bloom

  type Sender = seq<Octet>
  type Sha = Sender -> Digest          // any function at all

  // A sockaddr_storage as sockaddr_storage_equals looks at it
  datatype Target = Ip4(addr: seq<Octet>, port: int) | Ip6(addr: seq<Octet>, port: int) | OtherFamily

  const MAX_RATING: int := 10

  // sockaddr_storage_equals: equal addresses of a known family
  predicate SameTarget(a: Target, b: Target)
  {
    match (a, b)
    case (Ip4(x, p), Ip4(y, q)) => p == q && x == y
    case (Ip6(x, p), Ip6(y, q)) => p == q && x == y
    case _ => false
  }

  // hash1 to hash7: one byte of the digest each, as a signed char widened to unsigned
  function ByteHash(k: nat): HashFunc
    requires k < 7
  {
    (md: Digest) => if md[k] < 128 then md[k] as int else md[k] as int + 0xFFFF_FF00
  }

  function Hashes(): seq<HashFunc>
  {
    [ByteHash(0), ByteHash(1), ByteHash(2), ByteHash(3), ByteHash(4), ByteHash(5), ByteHash(6)]
  }

  // ----- what the ratings are, as values -----

  // One target: its rating, all senders that named it, and the bits of its filter
  datatype Record = Record(rating: int, senders: set<Sender>, bits: set<nat>)
  type Book = map<Target, Record>
  type Books = map<Id, Book>

  ghost function FilterBits(md: Digest): set<nat>
  {
    Positions(Hashes(), 96, md)
  }

  // A sender names a target once more: it counts unless the filter takes it for known.
  ghost function Counted(o: Record, from: Sender, md: Digest): Record
  {
    if o.rating < MAX_RATING && !(FilterBits(md) <= o.bits)
    then Record(o.rating + 1, o.senders + {from}, o.bits + FilterBits(md))
    else Record(o.rating, o.senders + {from}, o.bits)
  }

  ghost function Named(b: Book, target: Target, from: Sender, md: Digest): Book
  {
    if target == OtherFamily then b
    else if target in b then b[target := Counted(b[target], from, md)]
    else b[target := Record(0, {from}, FilterBits(md))]
  }

  ghost function RatingIn(b: Book, target: Target): int
  {
    if target in b then b[target].rating else 0
  }

  ghost function BookOf(bs: Books, key: Id): Book
  {
    if key in bs then bs[key] else map[]
  }

  // ----- runs of get_rating -----

  datatype Call = Call(hash: Id, target: Target, from: Sender)

  ghost function After(bs: Books, c: Call, sha1: Sha): Books
  {
    bs[c.hash := Named(BookOf(bs, c.hash), c.target, c.from, sha1(c.from))]
  }

  ghost function Run(calls: seq<Call>, sha1: Sha): Books
  {
    if calls == [] then map[]
    else After(Run(calls[..|calls| - 1], sha1), calls[|calls| - 1], sha1)
  }

  ghost function RatingAfter(calls: seq<Call>, sha1: Sha, hash: Id, target: Target): int
  {
    RatingIn(BookOf(Run(calls, sha1), hash), target)
  }

  // All who named the target for the hash
  ghost function Senders(calls: seq<Call>, hash: Id, target: Target): set<Sender>
  {
    set c | c in calls && c.hash == hash && c.target == target :: c.from
  }

  lemma SendersOfMore(calls: seq<Call>, c: Call, hash: Id, target: Target)
    ensures Senders(calls + [c], hash, target)
         == Senders(calls, hash, target) + if c.hash == hash && c.target == target then {c.from} else {}
  {}

  // A rating never exceeds 10, nor the number of different senders less one; a filter
  // whose rating can still grow knows all of them.
  ghost predicate Fair(r: Record, sha1: Sha)
  {
    && 0 <= r.rating <= MAX_RATING && r.rating + 1 <= |r.senders|
    && (r.rating < MAX_RATING ==> forall f | f in r.senders :: FilterBits(sha1(f)) <= r.bits)
  }

  lemma CountedIsFair(o: Record, from: Sender, sha1: Sha)
    requires Fair(o, sha1)
    ensures Fair(Counted(o, from, sha1(from)), sha1)
  {
    hide FilterBits;
    if from in o.senders {
      assert o.senders + {from} == o.senders;
    }
  }

  // What a book says of a target that these senders named
  ghost predicate FairFor(b: Book, target: Target, senders: set<Sender>, sha1: Sha)
  {
    && (target in b <==> target != OtherFamily && senders != {})
    && (target in b ==> Fair(b[target], sha1) && b[target].senders == senders)
  }

  lemma NamedIsFair(b: Book, target: Target, senders: set<Sender>, t: Target, from: Sender, sha1: Sha)
    requires FairFor(b, target, senders, sha1)
    ensures FairFor(Named(b, t, from, sha1(from)), target, if t == target then senders + {from} else senders, sha1)
  {
    hide FilterBits, Counted, Fair;
    if t == target && target != OtherFamily {
      if target in b {
        CountedIsFair(b[target], from, sha1);
        CountedSenders(b[target], from, sha1(from));
      } else {
        FirstIsFair(from, sha1);
      }
    }
  }

  lemma {:induction false} RunIsFair(calls: seq<Call>, sha1: Sha, hash: Id, target: Target)
    ensures FairFor(BookOf(Run(calls, sha1), hash), target, Senders(calls, hash, target), sha1)
  {
    hide FairFor, Named, Senders;
    if calls == [] {
      NobodyIsFair(hash, target, sha1);
    } else {
      var before, c := calls[..|calls| - 1], calls[|calls| - 1];
      assert calls == before + [c];
      RunIsFair(before, sha1, hash, target);
      SendersOfMore(before, c, hash, target);
      if c.hash == hash {
        NamedIsFair(BookOf(Run(before, sha1), hash), target, Senders(before, hash, target), c.target, c.from, sha1);
      }
      assert Senders(before, hash, target) + {} == Senders(before, hash, target);
    }
  }

  lemma NobodyIsFair(hash: Id, target: Target, sha1: Sha)
    ensures FairFor(map[], target, Senders([], hash, target), sha1)
  {}

  lemma CountedSenders(o: Record, from: Sender, md: Digest)
    ensures Counted(o, from, md).senders == o.senders + {from}
  {}

  lemma FirstIsFair(from: Sender, sha1: Sha)
    ensures Fair(Record(0, {from}, FilterBits(sha1(from))), sha1)
  {}

  // No rating overcounts: whatever the hash function, it is at most ten and below the
  // number of different senders that named the target for the hash.
  lemma RatingNeverOvercounts(calls: seq<Call>, sha1: Sha, hash: Id, target: Target)
    ensures 0 <= RatingAfter(calls, sha1, hash, target) <= 10
    ensures Senders(calls, hash, target) != {} ==>
      RatingAfter(calls, sha1, hash, target) <= |Senders(calls, hash, target)| - 1
  {
    RunIsFair(calls, sha1, hash, target);
  }

  // No call lowers any rating; it raises only that of its own hash and target, by one, and
  // only if this sender has not named the target for the hash before.
  lemma RatingIsMonotone(calls: seq<Call>, c: Call, sha1: Sha, hash: Id, target: Target)
    ensures RatingAfter(calls, sha1, hash, target) <= RatingAfter(calls + [c], sha1, hash, target)
            <= RatingAfter(calls, sha1, hash, target) + 1
    ensures RatingAfter(calls + [c], sha1, hash, target) != RatingAfter(calls, sha1, hash, target) ==>
      c.hash == hash && c.target == target && c.from !in Senders(calls, hash, target)
  {
    hide FilterBits;
    assert (calls + [c])[..|calls|] == calls;
    RunIsFair(calls, sha1, hash, target);
  }

  // Below ten, a sender whose filter bits are not all set by then raises the rating.
  lemma UnknownSenderCounts(calls: seq<Call>, c: Call, sha1: Sha)
    requires c.target in BookOf(Run(calls, sha1), c.hash)
    requires RatingAfter(calls, sha1, c.hash, c.target) < 10
    requires exists n: nat :: n in FilterBits(sha1(c.from))
               && forall d | d in calls && d.hash == c.hash && d.target == c.target :: n !in FilterBits(sha1(d.from))
    ensures RatingAfter(calls + [c], sha1, c.hash, c.target) == RatingAfter(calls, sha1, c.hash, c.target) + 1
  {
    assert (calls + [c])[..|calls|] == calls;
    BitsComeFromSenders(calls, sha1, c.hash, c.target);
  }

  lemma {:induction false} BitsComeFromSenders(calls: seq<Call>, sha1: Sha, hash: Id, target: Target)
    requires target in BookOf(Run(calls, sha1), hash)
    ensures forall n | n in BookOf(Run(calls, sha1), hash)[target].bits ::
      exists d :: d in calls && d.hash == hash && d.target == target && n in FilterBits(sha1(d.from))
  {
    hide FilterBits;
    var before, c := calls[..|calls| - 1], calls[|calls| - 1];
    if target in BookOf(Run(before, sha1), hash) {
      BitsComeFromSenders(before, sha1, hash, target);
    }
    assert c in calls && forall d | d in before :: d in calls;
  }

  // ----- the lists and filters of rating.c -----

  // Each of the seven looks at one octet of the digest, each at another one, and tells all
  // its values apart.
  lemma HashSeesOneOctet(k: nat, a: Digest, b: Digest)
    requires k < 7
    ensures |Hashes()| == 7 && (Hashes()[k](a) == Hashes()[k](b) <==> a[k] == b[k])
    ensures Hashes()[k](a) == if a[k] < 128 then a[k] as int else (a[k] as int) + 0xFFFF_FF00
  {
    if k == 0 {} else if k == 1 {} else if k == 2 {} else if k == 3 {} else if k == 4 {} else if k == 5 {} else {}
  }

  // struct dht_result_rating
  datatype Result = Result(ss: Target, frombloom: Filter, rating: int)

  ghost predicate ResultOk(r: Result, book: Book)
    reads r.frombloom, r.frombloom.a
  {
    && r.frombloom.Valid() && r.frombloom.asize == 96 && r.frombloom.funcs == Hashes()
    && (r.ss != OtherFamily ==>
          r.ss in book && book[r.ss].rating == r.rating && book[r.ss].bits == r.frombloom.Bits())
  }

  // struct dht_rating_entry
  class Entry {
    const key: Id
    const sha1: Sha
    var ratings: seq<Result>
    ghost var book: Book
    ghost var Repr: set<object>

    ghost predicate Valid()
      reads this, Repr
      ensures Valid() ==> this in Repr
    {
      && this in Repr
      && (forall r | r in ratings :: r.frombloom in Repr && r.frombloom.a in Repr)
      && (forall r | r in ratings :: ResultOk(r, book))
      && Separate(ratings)
      && book.Keys == TargetsOf(ratings) - {OtherFamily}
    }

    // rating_create_entry
    constructor (info_hash: Id, md: Sha, target: Target, from: Sender)
      ensures Valid() && fresh(Repr) && key == info_hash && sha1 == md
      ensures book == Named(map[], target, from, md(from))
    {
      key, sha1, ratings, book, Repr := info_hash, md, [], map[], {this};
      new;
      Append(target, from);
    }

    // rating_create, and its insertion at the end of the list
    method Append(target: Target, from: Sender)
      requires Valid() && target !in book
      modifies this
      ensures Valid() && fresh(Repr - old(Repr))
      ensures book == Named(old(book), target, from, sha1(from))
    {
      hide Filter.Valid, Filter.Bits, Separate, TargetsOf, Hashes, Positions;
      var bloom := new Filter(96, Hashes());
      bloom.Add(sha1(from));
      var r := Result(target, bloom, 0);
      assert TargetsOf(ratings) - {OtherFamily} == book.Keys;
      AppendSeparate(ratings, r);
      assert forall x | x in ratings :: ResultOk(x, book);
      ghost var before, oldBook := ratings, book;
      ratings := ratings + [r];
      Repr := Repr + {bloom, bloom.a};
      book := Named(book, target, from, sha1(from));
      forall x | x in ratings ensures ResultOk(x, book) {
        if x in before {
          assert x.ss != OtherFamily ==> x.ss in oldBook && x.ss != target;
        }
      }
    }

    // The part of get_rating that works on the ratings of one hash
    method Rate(target: Target, from: Sender) returns (r: int)
      requires Valid()
      modifies Repr
      ensures Valid() && fresh(Repr - old(Repr))
      ensures book == Named(old(book), target, from, sha1(from)) && r == RatingIn(book, target)
    {
      hide Valid;
      var j := FindTarget(target);
      if j < |ratings| {
        r := RateKnown(j, from);
      } else {
        KeyIsTarget();
        Append(target, from);
        r := 0;
      }
    }

    lemma KeyIsTarget()
      requires Valid()
      ensures this in Repr && OtherFamily !in book
    {
      hide ResultOk, Separate;
    }

    method FindTarget(target: Target) returns (j: nat)
      requires Valid()
      ensures j <= |ratings| && (j < |ratings| ==> ratings[j].ss == target && target in book && target != OtherFamily)
      ensures j == |ratings| <==> target !in book
    {
      hide Separate, ResultOk;
      j := 0;
      while j < |ratings| && !SameTarget(ratings[j].ss, target)
        invariant j <= |ratings|
        invariant forall i: nat | i < j :: !SameTarget(ratings[i].ss, target)
      {
        j := j + 1;
      }
      if j < |ratings| {
        assert ratings[j] in ratings;
      } else {
        assert forall x | x in ratings :: !SameTarget(x.ss, target);
      }
    }

    // The rating after one more sender, which the filter may or may not know.
    method CountSender(pos: Result, from: Sender, ghost o: Record) returns (r: int)
      requires pos.frombloom.Valid() && pos.frombloom.asize == 96 && pos.frombloom.funcs == Hashes()
      requires o.rating == pos.rating && o.bits == pos.frombloom.Bits()
      modifies pos.frombloom, pos.frombloom.a
      ensures pos.frombloom.Valid()
      ensures r == Counted(o, from, sha1(from)).rating
      ensures pos.frombloom.Bits() == Counted(o, from, sha1(from)).bits
    {
      hide Filter.Valid, Filter.Bits, Hashes, Positions;
      r := pos.rating;
      if pos.rating < 10 {
        var md := sha1(from);
        var known := pos.frombloom.Check(md);
        if !known {
          pos.frombloom.Add(md);
          r := pos.rating + 1;
        }
      }
    }

    // A target that is already listed: count the sender if it is new.
    method RateKnown(j: nat, from: Sender) returns (r: int)
      requires Valid() && j < |ratings| && ratings[j].ss != OtherFamily
      modifies Repr
      ensures Valid() && Repr == old(Repr)
      ensures book == Named(old(book), old(ratings)[j].ss, from, sha1(from))
      ensures r == RatingIn(book, old(ratings)[j].ss)
    {
      hide Separate, Filter.Valid, Filter.Bits, TargetsOf, Counted, Hashes;
      var pos := ratings[j];
      assert pos in ratings && ResultOk(pos, book);
      OthersDiffer(ratings, j);
      ReplaceRating(ratings, j);
      forall i: nat | i < |ratings| && i != j ensures ResultOk(ratings[i], book) {
        assert ratings[i] in ratings;
      }
      r := CountSender(pos, from, book[pos.ss]);
      ratings := ratings[j := pos.(rating := r)];
      book := book[pos.ss := Counted(book[pos.ss], from, sha1(from))];
      forall x | x in ratings ensures ResultOk(x, book) {
        var i: nat :| i < |ratings| && ratings[i] == x;
      }
    }
  }

  lemma OthersDiffer(rs: seq<Result>, j: nat)
    requires Separate(rs) && j < |rs|
    ensures forall i: nat | i < |rs| && i != j ::
      && (rs[i].ss == OtherFamily || rs[i].ss != rs[j].ss)
      && rs[i].frombloom != rs[j].frombloom && rs[i].frombloom.a != rs[j].frombloom.a
  {}

  lemma ReplaceRating(rs: seq<Result>, j: nat)
    requires Separate(rs) && j < |rs|
    ensures forall r :: Separate(rs[j := rs[j].(rating := r)])
                     && TargetsOf(rs[j := rs[j].(rating := r)]) == TargetsOf(rs)
  {
    forall r
      ensures Separate(rs[j := rs[j].(rating := r)])
      ensures TargetsOf(rs[j := rs[j].(rating := r)]) == TargetsOf(rs)
    {
      SameTargets(rs, rs[j := rs[j].(rating := r)]);
      SameTargets(rs[j := rs[j].(rating := r)], rs);
    }
  }

  lemma SameTargets(rs: seq<Result>, qs: seq<Result>)
    requires |rs| == |qs| && forall i: nat | i < |rs| :: rs[i].ss == qs[i].ss
    ensures TargetsOf(rs) <= TargetsOf(qs)
  {
    forall t | t in TargetsOf(rs) ensures t in TargetsOf(qs) {
      var x :| x in rs && x.ss == t;
      var i: nat :| i < |rs| && rs[i] == x;
      assert qs[i] in qs;
    }
  }

  function TargetsOf(rs: seq<Result>): set<Target>
  {
    set r | r in rs :: r.ss
  }

  lemma AppendSeparate(rs: seq<Result>, r: Result)
    requires Separate(rs) && (r.ss == OtherFamily || r.ss !in TargetsOf(rs))
    requires forall x | x in rs :: x.frombloom != r.frombloom && x.frombloom.a != r.frombloom.a
    ensures Separate(rs + [r]) && TargetsOf(rs + [r]) == TargetsOf(rs) + {r.ss}
  {
    assert forall i: nat | i < |rs| :: rs[i] in rs && rs[i].ss in TargetsOf(rs);
  }

  // No two results are for the same target or share a filter.
  ghost predicate Separate(rs: seq<Result>)
  {
    forall i: nat, j: nat | i < j < |rs| ::
      && (rs[i].ss == OtherFamily || rs[i].ss != rs[j].ss)
      && rs[i].frombloom != rs[j].frombloom && rs[i].frombloom.a != rs[j].frombloom.a
  }


  // ----- all hashes -----

  ghost predicate EntryOk(e: Entry, books: Books, sha1: Sha)
    reads e, e.Repr
  {
    e.Valid() && e.sha1 == sha1 && e.key in books && books[e.key] == e.book
  }

  function Keys(es: seq<Entry>): set<Id>
  {
    set e | e in es :: e.key
  }

  // Each entry has its own hash and its own filters.
  ghost predicate Apart(es: seq<Entry>)
    reads es
  {
    forall i: nat, j: nat | i < j < |es| :: es[i].key != es[j].key && es[i].Repr !! es[j].Repr
  }

  lemma ConsApart(e: Entry, es: seq<Entry>)
    requires Apart(es) && forall x | x in es :: x.key != e.key && x.Repr !! e.Repr
    ensures Apart([e] + es)
  {
    hide *;
    forall i: nat, j: nat | i < j < |[e] + es|
      ensures ([e] + es)[i].key != ([e] + es)[j].key && ([e] + es)[i].Repr !! ([e] + es)[j].Repr
    {
      if i == 0 {
        assert es[j - 1] in es;
      } else {
        ApartAt(es, i - 1, j - 1);
      }
    }
    AllApart([e] + es);
  }

  lemma ApartAt(es: seq<Entry>, i: nat, j: nat)
    requires Apart(es) && i < j < |es|
    ensures es[i].key != es[j].key && es[i].Repr !! es[j].Repr
  {}

  lemma AllApart(es: seq<Entry>)
    requires forall i: nat, j: nat | i < j < |es| :: es[i].key != es[j].key && es[i].Repr !! es[j].Repr
    ensures Apart(es)
  {}

  class Ratings {
    const sha1: Sha
    var list: seq<Entry>
    ghost var books: Books
    ghost var Repr: set<object>

    ghost predicate Owned()
      reads this, list
    {
      this in Repr && forall e | e in list :: e in Repr && e.Repr <= Repr && this !in e.Repr && e in e.Repr
    }

    ghost predicate Valid()
      reads this, Repr
      ensures Valid() ==> this in Repr
    {
      && this in Repr && (forall e | e in list :: e in Repr)
      && Owned() && Apart(list)
      && (forall e | e in list :: EntryOk(e, books, sha1))
      && books.Keys == Keys(list)
    }

    constructor (md: Sha)
      ensures Valid() && fresh(Repr) && books == map[] && sha1 == md
    {
      sha1, list, books, Repr := md, [], map[], {this};
    }

    method FindEntry(info_hash: Id) returns (k: nat)
      ensures k <= |list| && (k < |list| ==> list[k].key == info_hash)
      ensures k < |list| <==> info_hash in Keys(list)
    {
      hide IdCmp;
      k := 0;
      while k < |list| && IdCmp(list[k].key, info_hash) != 0
        invariant k <= |list|
        invariant forall j: nat | j < k :: list[j].key != info_hash
      {
        IdCmpIsNumericOrder(list[k].key, info_hash);
        k := k + 1;
      }
      if k < |list| {
        IdCmpIsNumericOrder(list[k].key, info_hash);
        assert list[k] in list;
      }
    }

    // get_rating
    method GetRating(info_hash: Id, target: Target, from: Sender) returns (r: int)
      requires Valid()
      modifies Repr
      ensures Valid() && fresh(Repr - old(Repr))
      ensures books == After(old(books), Call(info_hash, target, from), sha1)
      ensures r == RatingIn(BookOf(books, info_hash), target)
    {
      hide Valid, Named;
      BooksAreListed();
      var k := FindEntry(info_hash);
      if k < |list| {
        r := RateInEntry(k, target, from);
      } else {
        FirstRating(target, from, sha1(from));
        AddEntry(info_hash, target, from);
        r := 0;
      }
    }

    lemma BooksAreListed()
      requires Valid()
      ensures books.Keys == Keys(list) && this in Repr
    {}

    method RateInEntry(k: nat, target: Target, from: Sender) returns (r: int)
      requires Valid() && k < |list|
      modifies Repr
      ensures Valid() && fresh(Repr - old(Repr)) && list == old(list)
      ensures books == After(old(books), Call(list[k].key, target, from), sha1)
      ensures r == RatingIn(BookOf(books, list[k].key), target)
    {
      hide Entry.Valid, Named, Keys, RatingIn;
      var e := list[k];
      EntriesApart(k);
      r := e.Rate(target, from);
      books := books[e.key := e.book];
      Repr := Repr + e.Repr;
      forall i: nat | i < |list|
        ensures EntryOk(list[i], books, sha1) && (i != k ==> list[i].Repr == old(list[i].Repr))
      {
        if i != k {
          assert old(EntryOk(list[i], books, sha1));
        }
      }
    }

    lemma EntriesApart(k: nat)
      requires Valid() && k < |list|
      ensures forall i: nat | i < |list| ::
        && EntryOk(list[i], books, sha1) && list[i].Repr <= Repr && list[i] in list[i].Repr && this !in list[i].Repr
        && (i != k ==> list[i].key != list[k].key && list[i].Repr !! list[k].Repr)
    {
      hide Entry.Valid;
      forall i: nat | i < |list|
        ensures EntryOk(list[i], books, sha1)
        ensures list[i].Repr <= Repr && list[i] in list[i].Repr && this !in list[i].Repr
        ensures i != k ==> list[i].key != list[k].key && list[i].Repr !! list[k].Repr
      {
        assert list[i] in list;
        if i < k {
          assert list[i].key != list[k].key;
        } else if k < i {
          assert list[k].key != list[i].key;
        }
      }
    }

    lemma AllListed()
      requires Valid()
      ensures Apart(list) && Owned() && books.Keys == Keys(list)
      ensures forall e | e in list :: EntryOk(e, books, sha1) && e.key in books
    {
      hide Entry.Valid;
    }

    // rating_create_entry: a new hash goes to the front of the list.
    method AddEntry(info_hash: Id, target: Target, from: Sender)
      requires Valid() && info_hash !in books
      modifies this
      ensures Valid() && fresh(Repr - old(Repr))
      ensures books == After(old(books), Call(info_hash, target, from), sha1)
      ensures |list| > 0 && list[0].key == info_hash && list[1..] == old(list)
    {
      hide Entry.Valid, Named, Keys, Apart;
      AllListed();
      var e := new Entry(info_hash, sha1, target, from);
      assert forall x | x in list :: EntryOk(x, books, sha1);
      KeysOfCons(e, list);
      ghost var before := list;
      list := [e] + list;
      books := books[info_hash := e.book];
      Repr := Repr + e.Repr;
      ConsApart(e, before);
    }
  }

  lemma KeysOfCons(e: Entry, es: seq<Entry>)
    ensures Keys([e] + es) == Keys(es) + {e.key}
  {}

  lemma FirstRating(target: Target, from: Sender, md: Digest)
    ensures RatingIn(Named(map[], target, from, md), target) == 0
  {}
}
