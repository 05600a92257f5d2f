# Verification of the DTN DHT

A model in Dafny of the distributed hash table of the DTN DHT library and of the small
indexes beside it, with proofs of what they promise.

- **Routing table** (`Ids`, `Net`, `KademliaTree`, `BucketList`, `RoutingTable`, `NodeLaws`):
  the sorted list of buckets over 160-bit ids as a class, proved against functions on values,
  and those against the tree of our own id described in BEP 5, section "Routing Table".
  `NodeLaws` says in plain fields what becomes of a node.
- **Searches** (`XorMetric`, `SearchList`, `SearchStep`, `StepLaws`, `Search`, `SearchRuns`):
  the array of 14 nodes in order of distance, one step of a search, runs without replies, and
  runs of all searches.
- **Messages** (`ReplyBuffer`, `PeerStore`, `Krpc`, `KrpcParser`, `KrpcRoundTrip`,
  `KrpcAnyOctets`, `KrpcQueries`, `KrpcPlain`, `ClosestReply`): the packed list of closest
  nodes, the stored peers, the KRPC replies and queries from printer to parser, and the way of
  a table's closest nodes to a receiver.
- **DTN extension** (`Text`, `Dtn`): the reply with layers, groups and neighbours from printer
  to parser. `Text` holds what both message formats use: numbers, `strtol`, the search for
  markers, and the buffer that is filled by offset.
- **Tokens and rate limit** (`Tokens`, `RateLimit`): runs under a clock that never goes back.
- **SHA-1** (`Sha1Spec`, `Sha1Block`, `Sha1`): the unmasked 64-bit implementation against
  FIPS 180-1.
- **Blacklist and ratings** (`BlacklistTrie`, `Bloom`, `Rating`): the four-level trie against a
  set of addresses, and the rating counter behind a Bloom filter.
- `Seqs` holds a few facts about sequences.

Each method that changes state or loops is proved to do what a function on values says, and
the promises are proved of that function, over every input or every run. Sends, the clock,
random numbers and the answer of `node_blacklisted` are inputs or results.

The code and what is said about it disagree in these places; the model follows the code.

- The nodes of a search are sorted by increasing distance, not as the comment at
  dtndht/dht.c:910-912 has it.
- "Discard any doubtful nodes" (dtndht/dht.c:1195) is true exactly when no two doubtful nodes
  are neighbours (`SearchList.ReuseDropsDoubtfulIff`).
- The carry of the byte count in sha1_update is exact only while a chunk does not take the low
  word past 2^33 (`Sha1.CountBytes`); for chunks of less than 2^32 octets it always is.
- make_token applies htons to a port that is in network order already, so on a little-endian host
  the low octet is hashed first (`Tokens.PortBytes`).
- A reply that is printed without a colon in any binary field need not read back: the parser
  looks for markers such as "6:nodes6" anywhere, and a length that ends in the same digit
  followed by octets that spell the name is one. `KrpcRoundTrip` says when that happens.
- The layer parser of the DTN reply reports the sum of the lengths without the length fields,
  so that the search for the eid begins inside the layers.
- snprintf followed by a check that allows the exact buffer size lets a message pass whose last
  octet is the terminator (`Text.Transmitted`).

## Model

| member | source | states |
|---|---|---|
| `Ids.IdCmpIsNumericOrder` | dtndht/dht.c:395-399 | comparing two ids octet by octet orders them as 160-bit numbers, and calls them equal only if they are |
| `Ids.FindLowBit` | dtndht/dht.c:402-416 | the byte and bit loops find the number of the last 1 bit of an id, counted from the first, and -1 if there is none |
| `Ids.FindCommonBits` | dtndht/dht.c:419-439 | the byte loop and the shifting of the differing byte find the length of the longest common prefix of two ids; 160 for equal ones |
| `XorMetric.XorCmp` | dtndht/dht.c:442-457 | the sign of the result orders two ids by (id XOR ref) read as a 160-bit number, and is 0 exactly for equal ids |
| `XorMetric.DistanceInjective` | dtndht/dht.c:442-457 | different ids have different distances from the same reference, so the metric decides every tie |
| `KademliaTree.TreeIsAligned` | dtndht/dht.c:461-480 | after d splits there are d+1 buckets, each holding exactly the ids that share the first p bits of its first id, which ends in zeros; our own bucket has p = d and agrees with our id |
| `KademliaTree.OwnBucketHolds` | dtndht/dht.c:461-464 | the bucket of our own id at depth d holds an id if and only if it has at least d leading bits in common with ours |
| `KademliaTree.SiblingBucketHolds` | dtndht/dht.c:461-464 | for every j < d one bucket, at a known position, holds exactly the ids with j leading bits in common with ours |
| `KademliaTree.SiblingsDiffer` | dtndht/dht.c:461-480 | these positions and our own are pairwise different, so the d+1 buckets are all accounted for |
| `KademliaTree.TreePartitions` | dtndht/dht.c:686-719 | the buckets are consecutive intervals of 2^(160-p) ids that cover 0 to 2^160 without gap or overlap |
| `KademliaTree.RangeIsInterval` | dtndht/dht.c:461-464 | an id is in a bucket exactly when its number is in the bucket's interval |
| `KademliaTree.BoundaryBitIsDepth` | dtndht/dht.c:535-541 | the larger of the lowest set bits of a bucket's two bounds, plus one, is the depth of the bucket: the bit trick of bucket_middle recovers the prefix length |
| `KademliaTree.MiddleIsMidpoint` | dtndht/dht.c:535-546 | setting that bit gives the exact midpoint of the bucket's interval |
| `KademliaTree.CrowdedBucketIsShallow` | dtndht/dht.c:813-831 | eight different nodes, a ninth id and our own do not fit an own bucket deeper than 156, so a full own bucket can always be split |
| `BucketList.FindIsInBucket` | dtndht/dht.c:461-480 | the walk of find_bucket stops at bucket k if and only if the id is in the range of bucket k |
| `BucketList.SplitStep` | dtndht/dht.c:825-831 | when new_node splits and starts over, bucket_middle does not fail and the table it starts over with is again a valid table, one bucket larger; with at most 158 buckets the recursion ends |
| `BucketList.FullOwnBucketCanSplit` | dtndht/dht.c:813-831 | a valid table whose own bucket is full of eight others than the id offered has fewer than 158 buckets |
| `BucketList.SplitOwnKeepsValid` | dtndht/dht.c:686-719 | a split of our own bucket leaves the Kademlia tree of our own id one level deeper, every node in the range of its bucket, and correct counts |
| `BucketList.SplitLookup` | dtndht/dht.c:703-716 | a split loses, adds and alters no node: every id is looked up with the same answer as before |
| `BucketList.NewNodeKeepsValid` | dtndht/dht.c:724-855 | new_node keeps the whole invariant: tree shape, ranges, counts of at most 8, distinct ids, never our own id; it never loses a bucket |
| `BucketList.NewNodeOwnEffect` | dtndht/dht.c:724-855 | afterwards the id offered is looked up as refreshed if it was known, as a new entry if it was entered, and is missing only if its bucket holds 8 nodes none of which is bad and is not our own bucket full of good nodes, and then an address is kept as cached |
| `BucketList.NewNodeOtherEffect` | dtndht/dht.c:772-811 | any other node stays as it is, or is pinged once if it is not good and was not pinged in the last 15 seconds, or was bad and made room for a stranger |
| `BucketList.OneEviction` | dtndht/dht.c:772-786 | no more than one node goes for one node offered |
| `BucketList.ExpireKeepsValid` | dtndht/dht.c:860-892 | expire_buckets keeps the invariant |
| `BucketList.ExpireEffect` | dtndht/dht.c:860-892 | expire_buckets removes exactly the nodes pinged four times or more, and alters no other |
| `BucketList.PingNodeEffect` | dtndht/dht.c:628-633 | counting a request to a node changes that node's counter and time and nothing else |
| `BucketList.CondemnEffect` | dtndht/dht.c:645-651 | blacklist_node marks exactly the one node as pinged 4 times, and the next expire_buckets removes it |
| `BucketList.ReachableIsKademliaTable` | dtndht/dht.c:419-480 | after any run of table operations, a table of one bucket included: our own bucket at depth d holds the ids with at least d common bits, d others hold those with exactly j, find_bucket answers with the one bucket whose range holds the id, and there are at most 158 buckets |
| `BucketList.ReachableIdsAreDistinct` | dtndht/dht.c:500-580 | after any run no id occurs twice in the whole table, none is our own, and each lies in the range of its bucket |
| `NodeLaws.AnswerRenews` | dtndht/dht.c:742-763 | an answer of a known node makes its entry (id, address offered, heard of now, answered now, nothing open), which is good for the next 900 seconds; that entry is returned |
| `NodeLaws.RequestRenews` | dtndht/dht.c:742-763 | a request from a known node changes its address and the time it was heard of, and no more |
| `NodeLaws.HearsayMoves` | dtndht/dht.c:742-763 | hearsay leaves a node that was heard of in the last 900 seconds as it is, and otherwise changes its address only |
| `NodeLaws.StrangerIsEntered` | dtndht/dht.c:772-855 | a stranger is entered with the times its message gives it and nothing open, or its bucket afterwards holds eight nodes, none of them bad, and is not our own full of good ones |
| `NodeLaws.BadMakesRoom` | dtndht/dht.c:772-786 | a stranger takes the place of the first bad node of its bucket, even if there is room, and nothing else changes in the lists of nodes |
| `NodeLaws.RoomIsUsed` | dtndht/dht.c:842-854 | without a bad node it goes to the head of a bucket that is not full, and nothing else changes in the lists of nodes |
| `NodeLaws.RefusedChangesNothing` | dtndht/dht.c:730-737 | our own id, a martian address and a snubbed one change nothing |
| `NodeLaws.BucketIsTold` | dtndht/dht.c:742-840 | the bucket of the id has the time of an answer, or else the one it had, also through splits, and a stranger that spoke to us and was not entered has its address kept |
| `NodeLaws.GrowsMeans` | dtndht/dht.c:765-770 | the time our own bucket grew is set exactly for a stranger that has as many bits in common with us as the table is deep |
| `NodeLaws.OneIsPinged` | dtndht/dht.c:793-811 | a full bucket without a bad node that is not split has one node asked: the first that is neither good nor was asked in the last 15 seconds |
| `NodeLaws.OwnBucketSplits` | dtndht/dht.c:813-831 | our own bucket, full of good nodes or the only one and without a bad node, is split for a stranger |
| `NodeLaws.CachedIsUsedUp` | dtndht/dht.c:609-633 | the third request to a node uses up the address kept for its bucket, and so does an expiry that drops a node of the bucket |
| `NodeLaws.AnsweredNodeStays` | dtndht/dht.c:583-892 | in every run a node with nothing open is neither evicted nor expired before three requests, ours or those of new_node, went to it, whatever else happens, unless it is blacklisted |
| `NodeLaws.AnswerIsRemembered` | dtndht/dht.c:724-892 | so is one that answered, after its answer found it in the table or put it there |
| `RoutingTable.Table.FindBucket` | dtndht/dht.c:467-480 | the loop over the list finds the bucket of the specification |
| `RoutingTable.Table.FindNode` | dtndht/dht.c:500-514 | the loops over the buckets and over the nodes of one bucket find the node with the id, or none |
| `RoutingTable.Table.BucketMiddle` | dtndht/dht.c:535-546 | the midpoint of a bucket, computed from the lowest bits of its bounds; none when the range is a single id |
| `RoutingTable.Table.BucketRandom` | dtndht/dht.c:549-566 | for every choice of random octets the id returned lies in the range of the bucket, and random octets that already lie in it are returned unchanged |
| `RoutingTable.Table.InsertNode` | dtndht/dht.c:570-580 | the node goes to the head of the list of its bucket, whose count grows by one; nothing else changes |
| `RoutingTable.Table.SplitBucket` | dtndht/dht.c:686-719 | in place: the bucket is cut at its midpoint, the old nodes are handed out one by one through insert_node, and the result is the split of the specification; a range of one id is left alone |
| `RoutingTable.Table.NewNode` | dtndht/dht.c:724-855 | the method with its loops, early returns and recursion ends, keeps the invariant, and makes of the table what the specification says; the time our own bucket last grew is set exactly when a stranger falls into it |
| `RoutingTable.Table.NewNodeInFullBucket` | dtndht/dht.c:787-840 | the branch for a full bucket: ping the first dubious node, then split and start over or keep the address |
| `RoutingTable.Table.ExpireBuckets` | dtndht/dht.c:860-892 | the removal loops leave in each bucket exactly the nodes pinged less than four times, in their order, with the right count, and drop the cached address of a bucket that lost one |
| `RoutingTable.Table.RequestSent` | dtndht/dht.c:628-633 | the in-place update of counter and time |
| `RoutingTable.Table.BlacklistNode` | dtndht/dht.c:645-651 | the in-place marking of a node to be removed |
| `SearchList.InsertKeepsClosest` | dtndht/dht.c:914-972 | inserting keeps the list the 14 closest of all ids offered so far, in order of distance and without duplicates |
| `SearchList.ListsTheClosest` | dtndht/dht.c:914-972 | after any insertions into an empty search the list is exactly the 14 closest distinct ids offered, in order of increasing distance |
| `XorMetric.ClosestUnique` | dtndht/dht.c:914-945 | that description determines the list completely |
| `SearchList.InsertKeepsSorted` | dtndht/dht.c:914-945 | inserting keeps any sorted list sorted, also after nodes were flushed |
| `SearchList.InsertedEntries` | dtndht/dht.c:946-972 | after a message the entry of its sender has the address, is marked as replied with its time and nothing open if it did, has the token if one of less than 40 octets came, and the entry is otherwise the old one or blank; no other entry changes |
| `SearchList.FlushIdRemoves` | dtndht/dht.c:653-660 | although the loop steps over the entry shifted into the slot, afterwards no node with the id is left, the others are all kept, and the order is kept |
| `SearchList.ReuseKeepsSorted` | dtndht/dht.c:1192-1204 | discarding doubtful nodes when a search is reused keeps the order |
| `SearchList.ReuseDropsDoubtfulIff` | dtndht/dht.c:1192-1204 | no doubtful node (three requests open, or two hours without a reply) survives the loop if and only if no two doubtful nodes stood next to each other, for all lists |
| `SearchList.ReuseKeepsADoubtfulNode` | dtndht/dht.c:1192-1204 | the failing case: of two neighbours pinged three times the second stays, unreset |
| `SearchList.ReuseStartsOver` | dtndht/dht.c:1187-1204 | a search of nodes in good standing starts over with the same nodes, all replies, acks, tokens and counters forgotten |
| `Search.Search.InsertNode` | dtndht/dht.c:914-972 | in the array of 14: the scan, the shift that drops the last node and the update in place give the list of the specification; the other family is refused; the result tells whether the id is now listed |
| `Search.Search.FlushNode` | dtndht/dht.c:974-979 | the array loses exactly the one node, the later ones move up |
| `Search.Search.FlushId` | dtndht/dht.c:653-660 | on the array: exactly the nodes with the id are gone |
| `Search.Search.Reuse` | dtndht/dht.c:1192-1204 | on the array: the loop leaves the list of the specification and the order |
| `Search.Search.SendGetPeers` | dtndht/dht.c:1001-1032 | a request goes out exactly to a node that was not pinged three times, has not replied and was not asked in the last 15 seconds, and is counted |
| `Search.Search.SendGetPeersToAny` | dtndht/dht.c:1003-1013 | without a node given, one request goes to the last node of the list that may be asked, if any |
| `Search.Search.Step` | dtndht/dht.c:1036-1124 | one step over the array does to every node what the specification says, returns exactly the ids asked, and reports the end exactly when the first eight live nodes have replied and, for an announce, each of them has acked or gave no token |
| `StepLaws.FinishesIff` | dtndht/dht.c:1036-1102 | with the eight closest taken as the nodes pinged less than three times with fewer than eight such before them, a set: all of them have replied and, for an announce, acked or gave no token, if and only if the search ends |
| `StepLaws.StepOutcome` | dtndht/dht.c:1036-1124 | a step makes a search done exactly then, and counts as a step when they have replied or 15 seconds have gone by |
| `StepLaws.StepNode` | dtndht/dht.c:1054-1124 | for every node of the list: whether it is sent an announcement (one of the eight, with a token, not acked), counts as acked (no token), is sent get_peers (one of the three closest that may be asked), or stays as it is |
| `StepLaws.AtMostThree` | dtndht/dht.c:1054-1116 | no more than eight nodes are those eight, and no more than three those three |
| `StepLaws.AskedIdsAre` | dtndht/dht.c:1083-1116 | the ids returned as asked are exactly those of the nodes with one more open request |
| `StepLaws.OneMoreAsked` | dtndht/dht.c:1003-1032 | the one more request after a reply or an ack goes to the last node of the list that may be asked, and to no other |
| `StepLaws.ReplyIsHeard` | dtndht/dht.c:1957-1998 | a reply leaves the 14 closest of all offered before, the nodes it names and its sender, who, if listed, has replied and has nothing open |
| `StepLaws.ReplyAsksOne` | dtndht/dht.c:1989-1998 | when the sender is listed by then, every other node is as it was but for the one more request |
| `StepLaws.AckIsHeard` | dtndht/dht.c:2021-2040 | after an ack the node it is from has acked, has nothing open, and one more request went to the last node that may be asked |
| `SearchStep.StepProgress` | dtndht/dht.c:1036-1124 | with no replies, a step more than 15 seconds after the last either finishes the search or lowers the sum over the nodes of 3 - min(pinged, 3) |
| `SearchStep.StepSettles` | dtndht/dht.c:1036-1124 | steps alone keep every request time at or before the last step time |
| `SearchStep.FirstStepSettles` | dtndht/dht.c:1036-1124 | one step at a time no request lies beyond establishes it |
| `SearchStep.SilentSearchFinishes` | dtndht/dht.c:1036-1124 | any longer run of silent steps than that sum finishes the search |
| `SearchStep.FortyThreeStepsFinish` | dtndht/dht.c:1036-1124 | with 14 nodes at most 42 silent steps do not finish a search: the 43rd has |
| `SearchStep.AckedEntry` | dtndht/dht.c:2029-2037 | an ack marks the one node with its id, with time and nothing open, and no other |
| `SearchRuns.CallIsSearched` | dtndht/dht.c:1170-1236 | dht_search leaves a search for its id and family with its port, unless 1024 others are kept and none is done; none but its own changes, and only the oldest of those done can go, when there is no room or it was not stepped for 62 minutes |
| `SearchRuns.TickAndExpiry` | dtndht/dht.c:981-998 | a tick steps exactly the searches in progress that were not stepped for 5 seconds, and an expiry drops exactly those not stepped for 62 minutes |
| `SearchRuns.CallGrows` | dtndht/dht.c:1126-1155 | there is one search more exactly if it is new, fewer than 1024 are kept, and none that is done was not stepped for 62 minutes |
| `SearchRuns.NewSearchLists` | dtndht/dht.c:1206-1236 | a new search has the next number of 16 bits, starts with exactly the 14 closest of the nodes it is given, and is stepped at once |
| `SearchRuns.CallReportsDone` | dtndht/dht.c:1117-1236 | a call hands out a done event exactly if its search is done at once |
| `SearchRuns.TickReportsDone` | dtndht/dht.c:2150-2165 | a tick hands out one done event for each search it finishes |
| `SearchRuns.ReplyIsForOne` | dtndht/dht.c:1940-1998 | a reply in order changes the first search of its family with its number and no other |
| `SearchRuns.AckIsForOne` | dtndht/dht.c:2021-2040 | so does an ack |
| `SearchRuns.BrokenIsFlushed` | dtndht/dht.c:1940-1998 | a broken reply takes its sender out of every search as blacklist_node does, and then enters it in the one the reply is for |
| `SearchRuns.SenderIsHeard` | dtndht/dht.c:1945-1998 | that search then lists the 14 closest of what it was offered, of the nodes found and of the sender, who has replied; of a broken reply only the sender is entered |
| `SearchRuns.NextKeepsValid` | dtndht/dht.c:1170-1236 | calls of dht_search, steps, expiry, replies to get_peers and announce_peer with the further request each brings, and the removal of broken nodes keep: every search lists at most 14 nodes in order of distance, no two searches are for the same id and family, and the account of done events |
| `SearchRuns.SearchesStaySorted` | dtndht/dht.c:910-945 | in every run, of two nodes of a search the one listed first is closer to the target, and they are different |
| `SearchRuns.SearchesStayApart` | dtndht/dht.c:1180-1215 | in every run every search lists at most 14 nodes, and different searches have different targets or families |
| `SearchRuns.CondemnedIsGone` | dtndht/dht.c:653-660 | whatever went before, right after blacklist_node no search lists the id, and all else is listed as before |
| `Search.Search.TakeReply` | dtndht/dht.c:1940-1998 | on the array: a reply to get_peers enters the nodes found, sends one more request and enters the sender, in that order |
| `Search.Search.TakeAck` | dtndht/dht.c:2021-2040 | on the array: a reply to announce_peer marks the one node with that id, if it is listed, and one more request is sent |
| `SearchRuns.DoneEventsAreBounded` | dtndht/dht.c:1102-1121 | over any run the searches reported done and those still running are together no more than the calls of dht_search, and there are never more than 1024 searches |
| `ReplyBuffer.InsertClosestNode` | dtndht/dht.c:2596-2639 | on the packed octets of 26 or 38 a record: decoded, the buffer afterwards holds the sorted list with the node inserted, and no octet behind the eighth record is written |
| `ReplyBuffer.PutRecord` | dtndht/dht.c:2617-2636 | the memmove and the three copies shift the later records up by one, drop the ninth, and write the new one between |
| `ReplyBuffer.CollectsTheClosest` | dtndht/dht.c:2641-2650 | collecting the good nodes of a list keeps exactly the 8 closest of them, sorted by distance, without duplicates |
| `ReplyBuffer.BufferClosestNodes` | dtndht/dht.c:2641-2650 | the loop over one bucket |
| `ReplyBuffer.ClosestNodes` | dtndht/dht.c:2652-2694 | the buffer decodes to exactly the min(8, n) closest of the n good nodes of the target's bucket and its two neighbours, in order |
| `ReplyBuffer.NearbyMeans` | dtndht/dht.c:2667-2686 | a node is looked at exactly if it is in the target's bucket, the one before or the one behind |
| `PeerStore.Storage.Store` | dtndht/dht.c:1285-1317 | in the array of one hash: a known peer is refreshed, a new one added, growing the array if it must, and dropped only when 2048 are stored; peers stay distinct |
| `PeerStore.Storage.Grow` | dtndht/dht.c:1297-1310 | a full array is replaced by one of twice the size, or by one of 2, with the same peers; the size stays at most 2048 |
| `PeerStore.Storage.Expire` | dtndht/dht.c:1323-1332 | removal by swapping in the last peer keeps exactly the peers no older than 32 minutes, with their times |
| `PeerStore.Store.StorePeer` | dtndht/dht.c:1253-1318 | over the list of hashes the operation is one update of a map from hash to peer to time; it is refused only for a new hash when 16384 are stored |
| `PeerStore.Store.ExpireStorage` | dtndht/dht.c:1320-1358 | every entry loses exactly its old peers and the entries left empty are gone; the map tells the whole effect |
| `PeerStore.ApplyKeepsBounds` | dtndht/dht.c:1253-1358 | no more than 16384 hashes, none of them empty, each with at most 2048 peers, after every operation |
| `PeerStore.RunKeepsLastAnnouncement` | dtndht/dht.c:1253-1358 | in every run a stored peer carries the time of its last announcement for that hash |
| `PeerStore.AnnouncedPeerStays` | dtndht/dht.c:1253-1358 | a stored peer is still stored after any operations up to 32 minutes later |
| `PeerStore.AnnouncedIsKnown` | dtndht/dht.c:1253-1318 | in every run, after an announcement the peer is known with its time if and only if it was known, or its hash holds less than 2048 peers, or the hash is new and fewer than 16384 are held; otherwise nothing changes, and no other peer does |
| `PeerStore.StoreCode` | dtndht/dht.c:1311-1317 | the result is 1 for a new peer, 0 for a known one or a full hash, -1 for a new hash beyond 16384 |
| `PeerStore.AdmittedPeerStays` | dtndht/dht.c:1253-1358 | so a peer that is admitted is stored for 32 minutes, whatever follows |
| `PeerStore.ExpiryIsThorough` | dtndht/dht.c:1320-1358 | in every run, right after an expiry exactly those peers are left that were stored and last announced for the hash within 32 minutes |
| `Tokens.HashedIsInjective` | dtndht/dht.c:1384-1406 | the octets make_token hashes determine secret, address and port, so two of them share a token only if the hash function collides |
| `Tokens.Replay` | dtndht/dht.c:1360-1419 | the code run over any calls: a token made before one call is accepted at a later one less than 900 seconds away |
| `Tokens.TokenMaker.TokenMatch` | dtndht/dht.c:1407-1419 | a token of 8 octets is accepted exactly if it is that of the current or of the previous secret |
| `Tokens.TokenMaker.RotateSecrets` | dtndht/dht.c:1360-1372 | the current secret becomes the previous one and the next rotation lies 900 to 2699 seconds ahead |
| `Tokens.SecretIsRemembered` | dtndht/dht.c:1360-1372 | in every run with a clock that does not go back a secret is current or previous for 900 seconds after any time it was current |
| `Tokens.TokenIsAccepted` | dtndht/dht.c:1384-1419 | a token handed out at any point of a run is accepted from the same address and port at any later point less than 900 seconds away, whatever the random delays |
| `Tokens.TokenMayExpire` | dtndht/dht.c:1384-1419 | after exactly 900 seconds it may be refused |
| `Tokens.CallRotates` | dtndht/dht.c:1360-1372 | when the time has come the next call makes the random octets the secret and keeps the old one, with 900 to 2699 seconds to go; before, nothing changes |
| `Tokens.SecretIsForgotten` | dtndht/dht.c:1360-1419 | two rotations later a token is refused, unless the hash function collides |
| `RateLimit.RateControl.Take` | dtndht/dht.c:1700-1712 | a request is accepted exactly if a token is left after the refill of 100 a second, up to 400 |
| `RateLimit.TokensArePaidFor` | dtndht/dht.c:1700-1712 | tokens stay between 0 and 400, and accepted requests plus tokens left never exceed 400 + 100 for each second gone by |
| `RateLimit.AcceptedSinceStart` | dtndht/dht.c:1700-1712 | from start time T0 to T no more than 400 + 100 (T - T0) requests are accepted |
| `RateLimit.AcceptedInWindow` | dtndht/dht.c:1700-1712 | in any window from s to t no more than 800 + 100 (t - s) |
| `RateLimit.FirstRequestsServed` | dtndht/dht.c:1700-1712 | in every run the first 400 requests are accepted |
| `RateLimit.RefusedAtOnce` | dtndht/dht.c:1700-1712 | a request is refused only when the bucket was last refilled, or made empty, in the same second |
| `RateLimit.ServedAgain` | dtndht/dht.c:1700-1712 | after a refusal at t, of the requests from the first at u > t on the next min(400, 100 (u - t)) are all accepted, in every run |
| `RateLimit.Serve` | dtndht/dht.c:1700-1712 | the code run over any times: request by request the answer is that of the run these lemmas are about |
| `Sha1Block.LowF` | dtndht/sha1.c:116-229 | the optimised boolean functions on unmasked 64-bit words have the low words of the functions of section 5 of FIPS 180-1, for all four round groups |
| `Sha1Block.LowRotations` | dtndht/sha1.c:96 | the rotation macro on an unmasked word has the rotated low word |
| `Sha1Block.R` | dtndht/sha1.c:98-103 | the rolling schedule: one slot of the 16-word window is overwritten with the next word of the 80-word schedule of section 7 |
| `Sha1Block.P` | dtndht/sha1.c:105-108 | one round with renamed registers is one round of the textbook with shifted ones |
| `Sha1Block.Process` | dtndht/sha1.c:75-229 | for every state and block the low 32 bits of the new state are those of the 80-round block function of FIPS 180-1 |
| `Sha1.CountBytes` | dtndht/sha1.c:245-249 | the two-word byte count stays right if and only if the chunk does not take the low word past 2^33 |
| `Sha1.Context.Absorb` | dtndht/sha1.c:251-272 | filling the buffer, hashing whole blocks and keeping the rest lose and reorder no octet |
| `Sha1.Context.Update` | dtndht/sha1.c:234-273 | after any update the context stands for the whole input so far; the count is exact as long as the carry condition holds, and only then |
| `Sha1.Context.Finish` | dtndht/sha1.c:286-310 | padding and length field are those of section 4 of FIPS 180-1, so the digest is the message digest whenever the count is exact |
| `Sha1.Stream` | dtndht/sha1.c:234-310 | however a message is cut into chunks of less than 2^32 octets, the digest is that of the standard for the whole |
| `Sha1.Hash` | dtndht/sha1.c:315-324 | the one-shot digest is that of the standard for inputs of less than 2^33 octets |
| `BlacklistTrie.Trie.Insert` | dtndht/blacklist.c:101-120 | walking down and creating the missing entries and the leaf adds exactly the one address: the answer changes for no other |
| `BlacklistTrie.Trie.Contains` | dtndht/blacklist.c:126-161 | walking down finds a leaf exactly for the members |
| `BlacklistTrie.Blacklist.BlacklistNode` | dtndht/blacklist.c:62-122 | only while enabled, and only in the trie of the address family, is the address added; the port does not matter |
| `BlacklistTrie.Blacklist.Blacklisted` | dtndht/blacklist.c:124-183 | the answer is yes exactly for an IPv4 member while enabled |
| `BlacklistTrie.Blacklist.Size` | dtndht/blacklist.c:30-35 | the counters are the cardinalities of the two sets |
| `BlacklistTrie.Replay` | dtndht/blacklist.c:62-183 | over any run of additions and switching, the answer and the counter are those of the set of IPv4 addresses added while enabled |
| `Bloom.Filter.constructor` | dtndht/bloom.c:35-62 | a new filter has no bit set |
| `Bloom.Filter.Set` | dtndht/bloom.c:32-33 | the macros set and read one bit: setting changes the answer for no other bit |
| `Bloom.Filter.Add` | dtndht/bloom.c:73-82 | adding a string sets exactly the bits of its hash functions and clears none |
| `Bloom.Filter.Check` | dtndht/bloom.c:84-93 | the answer is yes exactly if all bits of the string are set, so always for an added one |
| `Rating.Ratings.GetRating` | dtndht/rating.c:95-129 | over the lists and filters in place: the ratings of all other hashes and targets stay, that of the target starts at 0 or counts the sender if the filter does not know it, and is returned |
| `Rating.Entry.RateKnown` | dtndht/rating.c:105-118 | a listed target: the filter and the counter of that target change, those of no other |
| `Rating.Entry.Append` | dtndht/rating.c:55-81 | a new target gets a filter of 96 bits that knows the first sender, and rating 0 |
| `Rating.Ratings.AddEntry` | dtndht/rating.c:83-93 | a new hash goes to the front of the list with its first target, the other entries behind it as they were |
| `Rating.RatingNeverOvercounts` | dtndht/rating.c:95-129 | over any run of calls, whatever the hash function, a rating is at most 10 and at most the number of different senders that named the target for the hash, less one |
| `Rating.RatingIsMonotone` | dtndht/rating.c:95-129 | no call lowers a rating; it raises only that of its own hash and target, by one, and only for a sender that had not named it before |
| `Rating.UnknownSenderCounts` | dtndht/rating.c:110-116 | below 10, a sender with a bit that no earlier sender of the target set raises the rating |
| `Rating.HashSeesOneOctet` | dtndht/rating.c:13-33 | each of the seven hash functions depends on its own octet of the digest and on no other, tells all values of it apart, and takes it as a signed char |
| `Text.MemMem` | dtndht/dht.c:2907-2922 | the loop finds the first occurrence, or none |
| `Text.Packet.Print` | dtndht/dht.c:2414-2419 | text goes behind what is there; a text that does not fit fails all that follows, one that fits but for the terminator passes the check with its last octet overwritten |
| `Text.Packet.Copy` | dtndht/dht.c:2421-2424 | octets go behind what is there, or the packet fails |
| `Text.StrtolOfField` | dtndht/dht.c:2938-2946 | a length, a colon and that many octets, whatever they are, are read back with strtol and the pointer behind the number |
| `Dtn.SendDtnInfo` | dtndht/dht.c:2820-2888 | the calls and loops put into the buffer of 4096 octets exactly the message, or nothing is sent |
| `Dtn.EidListReadsBack` | dtndht/dht.c:2931-2964 | a printed list of ids with any octets is read up to its first empty id, with the exact length of the text read |
| `Dtn.EidListRoundTrip` | dtndht/dht.c:2931-2964 | it is read back whole if and only if no id is empty |
| `Dtn.ParseArgs` | dtndht/dht.c:2966-3006 | the scanning loops and the recursion read what the specification says, also from malformed text |
| `Dtn.ArgsRoundTrip` | dtndht/dht.c:2966-3006 | printed arguments are read back if and only if there is one, no key holds '=' and no value holds ';' |
| `Dtn.ParseLayers` | dtndht/dht.c:3008-3084 | the parser of the layers with its scanning loop and recursion, on any text |
| `Dtn.LayersRoundTrip` | dtndht/dht.c:3008-3084 | printed layers are read back, those whose name begins like tcp or udp with the sender's address as first argument, if and only if no name holds ';' and all their arguments read back |
| `Dtn.TakesAddressMeans` | dtndht/dht.c:3044-3060 | the sender's address is added exactly to names that begin with tcp or udp, or are a beginning of one |
| `Dtn.SeenLayers` | dtndht/dht.c:3036-3062 | what is kept of each printed layer: its name, and its arguments, behind an argument ip with the address where that is added |
| `Dtn.ParseDtnReply` | dtndht/dht.c:3134-3225 | the sequence of searches and parsers on any text |
| `Dtn.InfoRoundTrip` | dtndht/dht.c:2820-3225 | what send_dtninfo puts on the wire is read back whole if and only if there is a layer, all layers read back, the eid has 6 octets or more, no group or neighbour is empty, the transaction id has 1 to 15 octets, and no marker is met early to another effect than the real one: none of the eid in the octets of the layers that are searched twice, unless the same eid and then the same lists are read from there, and none of the groups at the end of the eid, unless the one group is "gr" |
| `Dtn.EarlyGroupsCases` | dtndht/dht.c:3158-3190 | which lists are read behind a repeated eid: the real ones if no marker of the groups comes early, in the layers or the eid; none if its list runs past the end; otherwise, unless the list takes in the neighbours or their marker, the groups of that list and the real neighbours |
| `Dtn.NoMarkerInLayers` | dtndht/dht.c:3134-3158 | no marker of the eid is met early when no layer holds it |
| `Dtn.EarlyMarkerIsFatal` | dtndht/dht.c:3134-3158 | for all readable layers with the marker in those octets and no eid behind it, nothing is read at all, because the length the layer parser reports leaves out the length fields |
| `Dtn.MarkerInLayersIsFatal` | dtndht/dht.c:3134-3158 | such layers exist: three with the argument "e3:eid" make any message unreadable |
| `Krpc.SendNodesPeers` | dtndht/dht.c:2528-2594 | the calls and the loop put into the buffer of 2048 octets exactly the reply, or nothing is sent |
| `Krpc.PutServed` | dtndht/dht.c:2559-2577 | the loop around the storage from a random position ends after one turn or 50 peers, and prints the peers of the family in that order |
| `Krpc.ServedPeers` | dtndht/dht.c:2559-2577 | whatever the position: only peers of the family, none twice, 50 at most, and all of them if there are no more |
| `KrpcParser.ReadValues` | dtndht/dht.c:3363-3405 | the values loop ends, its index growing with every value and never passing the end, and collects what the specification says, on any text |
| `KrpcParser.ParseMessage` | dtndht/dht.c:3240-3460 | all fields, the port, the want flags and the kind of a message as the specification reads them, on any text |
| `KrpcParser.ReadWant` | dtndht/dht.c:3407-3434 | the want loop ends and sees exactly the strings of the list up to the first that is malformed or reaches the end |
| `KrpcRoundTrip.ReplyFits` | dtndht/dht.c:2528-2594 | with at most 8 and 8 nodes, 50 peers, an 8-octet token and a transaction id of 1 to 15 octets a reply has at most 1682 octets and is always sent whole, whatever octets it holds |
| `KrpcRoundTrip.TidValue` | dtndht/dht.c:3261-3274 | the transaction id of a reply without colons in its binary fields reads back |
| `KrpcRoundTrip.IdRead` | dtndht/dht.c:3275-3283 | the id of the node reads back, whatever octets the reply holds |
| `KrpcRoundTrip.NoHashesRead` | dtndht/dht.c:3284-3314 | in a reply without colons in its binary fields no hash or target is found |
| `KrpcRoundTrip.TokenValue` | dtndht/dht.c:3315-3329 | in a reply without colons the token reads back if and only if it is there or the transaction id does not begin with "token" and go on to a length, with 5 or 15 octets |
| `KrpcRoundTrip.NodesValue` | dtndht/dht.c:3331-3345 | for replies without colons, the same for the list of IPv4 nodes and "nodes" |
| `KrpcRoundTrip.Nodes6Value` | dtndht/dht.c:3347-3361 | in a reply without colons the list of IPv6 nodes reads back exactly unless the list of IPv4 nodes, a peer or the transaction id spells its marker, in the cases listed by Nodes6Taken |
| `KrpcRoundTrip.ValuesValue` | dtndht/dht.c:3363-3405 | all peers of each family read back in their order when no list of nodes spells the marker of the values |
| `KrpcRoundTrip.SpelledCases` | dtndht/dht.c:3363-3405 | where a list of nodes spells the marker of the values: a length that runs past the end loses the whole reply; no length, or one with no other behind its octets, does no harm exactly when what is read then is what the peers are |
| `KrpcRoundTrip.ReplyRoundTrip` | dtndht/dht.c:2528-3416 | for all replies without a colon in their binary fields: everything reads back if and only if the transaction id does not pass for a missing token or list, nothing passes for the list of IPv6 nodes, and no list of nodes that spells the marker of the values is read for other values than those of the peers |
| `KrpcRoundTrip.MisreadReply` | dtndht/dht.c:2528-3416 | a reply that fails: nothing but an id and the transaction id "nodes6" |
| `KrpcAnyOctets.AnyOctetsRoundTrip` | dtndht/dht.c:2528-3416 | for replies with any octets in their fields, colons included: everything reads back when every marker is met first where its section is, and nowhere if that is left out |
| `KrpcAnyOctets.NodesReads` | dtndht/dht.c:3331-3345 | a list of IPv4 nodes reads back whatever octets the reply holds, if its marker is not met in the node's id before |
| `KrpcAnyOctets.Nodes6Reads` | dtndht/dht.c:3347-3361 | the same for the list of IPv6 nodes and all that is printed before it |
| `KrpcAnyOctets.ValuesReads` | dtndht/dht.c:3363-3405 | all peers of each family read back in their order, whatever octets they have, if the marker of the values is not met before |
| `KrpcAnyOctets.LongFieldsAreLost` | dtndht/dht.c:3261-3361 | a transaction id of 16 octets or more, a token of 128, lists of 256 and 1024 are read as empty |
| `KrpcQueries.SendPing` | dtndht/dht.c:2461-2477 | the calls put exactly the query into the buffer of 512 octets, or nothing is sent |
| `KrpcQueries.SendFindNode` | dtndht/dht.c:2499-2526 | the same with target and the families wanted |
| `KrpcQueries.SendGetPeers` | dtndht/dht.c:2696-2723 | the same with info_hash and the families wanted |
| `KrpcQueries.SendAnnouncePeer` | dtndht/dht.c:2725-2752 | the same with info_hash, port and token |
| `KrpcQueries.QueryFits` | dtndht/dht.c:2461-2752 | a query has less than 200 octets and is always sent whole |
| `KrpcQueries.KindReads` | dtndht/dht.c:3439-3453 | a printed ping, find_node, get_peers or announce_peer is taken for what it is if and only if it does not spell one of the kinds looked for before |
| `KrpcQueries.ErrorsAndUnknown` | dtndht/dht.c:3439-3454 | any text: it is an error if it holds the mark of one and not that of a reply, and of no kind if it holds neither and is no query of a known name |
| `KrpcQueries.CutOffIdIsRefused` | dtndht/dht.c:3275-3314 | any text that ends within twenty octets of the marker of an id is refused |
| `KrpcQueries.CutOffFieldIsRefused` | dtndht/dht.c:3261-3361 | so is one that ends within the transaction id, the token or a list of nodes, when its length is one that would be read |
| `KrpcQueries.QueryRoundTrip` | dtndht/dht.c:2461-3453 | for all queries with any octets, when no marker is met early: kind, transaction id, id, target or info_hash, token and families wanted are read as printed, and so is the port when its own marker is not met early |
| `KrpcQueries.PortIsMisread` | dtndht/dht.c:3293-3305 | an id that spells a port is read for it, whatever port is announced |
| `KrpcPlain.PlainRoundTrip` | dtndht/dht.c:2461-3453 | for all queries without colons whose transaction id, token and version do not begin like a marker behind their length, no marker is met early and all is read as printed |
| `ClosestReply.SendClosestNodes` | dtndht/dht.c:2652-2694 | the reply holds, for each family wanted, the min(8, n) closest good nodes of three buckets, packed, and goes out exactly as printed |
| `ClosestReply.ReadNodes` | dtndht/dht.c:1957-1988 | the loops of the receiver read the packed records one by one, skipping its own id |
| `ClosestReply.ClosestNodesArrive` | dtndht/dht.c:2641-3361 | for every reachable table and either family, and any octets in the reply: when it is accepted, and the marker of the list is not met before the list, what a receiver takes apart is exactly the ids and addresses of the min(8, n) closest good nodes, in order of distance |
| `ClosestReply.UndisturbedIsAccepted` | dtndht/dht.c:3240-3416 | when acceptance is certain: no marker is met early, whatever the octets, or there is no colon and nothing passes for anything else |
| `ClosestReply.Exchange` | dtndht/dht.c:1957-2694 | from the tables of both families to what another node learns, in one run of the code: printed, parsed and taken apart, these are the closest good nodes but for the receiver itself |
| `ClosestReply.ReachableIsOneFamily` | dtndht/dht.c:724-855 | in every run a table that was told of nodes of one family only holds only such nodes |

## Left out

- Sockets, dht_send, select, signals, DNS, configuration files, logging and dump output: input
  and output.
- Failure of malloc, and who frees what: allocation succeeds. A failed split inside new_node,
  which the code ignores, needs it.
- Buckets, nodes, stored result entries and lists of searches are values in fields of type seq:
  the order of the linked lists is modelled, aliasing of pointers into them is not.
- The second table of the other address family, and a family without a table: one table, of any
  family, is modelled, with at least one bucket; only ClosestReply has both.
- dht_periodic, bucket_maintenance and neighbourhood_maintenance: which operation runs when is
  not modelled; the runs here allow any order.
- node_blacklisted and its ring of ten addresses: its answer is the field `snubbed` of an offer.
- Transaction ids: the 16-bit counter wraps, so they are not unique in the long run; find_search
  takes the first search of the family with the number.
- cleanUpList (dtndht/list.c): it loses entries, so its documented contract does not hold.
- The IPv6 branch of blacklist_blacklisted is commented out in the source, so IPv6 addresses are
  stored and counted but never found; blacklist_free and the list of blacklisted ids are not
  modelled.
- dht_hash in tokens and SHA1 in ratings are arbitrary functions: nothing is said about forging.
- The printers of errors and of the replies without lists, DTN queries, HMAC, the SHA-1 self
  tests and sha1_file: they would add only easy members.
- strtol on a number beyond the range of long returns the limit, as in the standard; the pointer
  overflow that a check against such a length may cause is taken as an ordinary overflow.
- The time at which an entry was last updated is not modelled in ratings: nothing reads it.
- Dtn.InfoRoundTrip: where layers repeat the eid behind its marker, and the list of an early marker
  of the groups takes in the neighbours or their marker, the condition is stated by the lists that
  are read from there; all other cases are told apart in EarlyGroupsCases.
- KrpcRoundTrip.ReplyRoundTrip: where a list of nodes spells the marker of the values and goes on
  with several lengths, the condition is stated by what the values loop collects from there; all
  other cases are told apart in SpelledCases.
- KrpcAnyOctets.AnyOctetsRoundTrip: with colons in the fields the condition goes one way, because
  an early marker can be followed by a copy of the very section.
- KrpcQueries.QueryRoundTrip: the condition goes one way, for the same reason; KrpcPlain says which
  queries meet it.
- ReplyBuffer.ClosestNodes: the three buckets the code looks at, not the whole table; the nodes of
  a table have addresses of its family, as its callers see to.
- storage_store for an address of neither family returns an error in the source; the peers of the
  model have an address of some length.
