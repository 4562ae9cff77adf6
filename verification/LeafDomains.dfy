/**
Leaf domains: assignLeafDomains in algorithm_server/go/topology/source.go.

Domain ids are terms rather than texts: an id made with shortHash is the constructor applied to what is hashed,
so distinct inputs give distinct ids and no hashed id is a configured id or a switch name. Lists that the code
keeps sorted and free of duplicates are sets.
*/
module LeafDomains {
  import opened Text

  datatype Id =
    | NoId                                   // the empty text
    | Name(name: string)                     // a switch name or a configured id
    | PairOf(leaves: set<string>)            // "pair-" + shortHash
    | SpinesOf(spines: set<string>)          // "spine-domain:" + shortHash
    | BordersOf(borders: set<string>)        // "border-domain:" + shortHash
    | BothOf(spine: Id, border: Id)          // "layered:" + shortHash
    | SpineUplink(domain: Id)                // "spine:" + domain
    | BorderUplink(domain: Id)               // "border:" + domain

  datatype Mode = Layered | UplinkCompatible

  datatype Leaf = Leaf(
    region: string, location: string, dataCenter: string, room: string, switch: string,
    spines: set<string>, borders: set<string>, peers: set<string>,
    spineDomain: Id, borderDomain: Id, uplinkDomain: Id,
    leafDomain: Id, leafDomainLeaves: set<string>)

  // uniqueSorted(append([]string{leafID}, leaf.PeerLeafIDs...))
  function Members(id: string, leaf: Leaf): set<string> {
    Unique({id} + leaf.peers)
  }

  // UplinkKind is the constructor of uplinkDomain, so equal uplink domains have equal kinds.
  predicate SameUplink(mode: Mode, a: Leaf, b: Leaf) {
    match mode
    case UplinkCompatible => a.uplinkDomain == b.uplinkDomain
    case Layered => a.spineDomain == b.spineDomain && a.borderDomain == b.borderDomain
  }

  // The checks one member of a candidate block must pass.
  predicate Fits(byLeaf: map<string, Leaf>, mode: Mode, id: string, members: set<string>, member: string)
    requires id in byLeaf
  {
    && member in byLeaf
    && Unique(byLeaf[member].peers) == Unique(members - {member})
    && byLeaf[member].room == byLeaf[id].room
    && SameUplink(mode, byLeaf[member], byLeaf[id])
  }

  predicate Consistent(byLeaf: map<string, Leaf>, mode: Mode, id: string)
    requires id in byLeaf
  {
    var members := Members(id, byLeaf[id]);
    |members| <= 2 && forall m :: m in members ==> Fits(byLeaf, mode, id, members, m)
  }

  ghost predicate AllConsistent(byLeaf: map<string, Leaf>, mode: Mode) {
    forall id :: id in byLeaf ==> Consistent(byLeaf, mode, id)
  }

  // What every leaf ends up with, in closed form.
  function Paired(id: string, leaf: Leaf): Leaf {
    var members := Members(id, leaf);
    leaf.(leafDomain := if |members| > 1 then PairOf(members) else Name(id), leafDomainLeaves := members)
  }

  function Assigned(byLeaf: map<string, Leaf>): map<string, Leaf> {
    map id | id in byLeaf :: Paired(id, byLeaf[id])
  }

  ghost predicate CleanKeys(byLeaf: map<string, Leaf>) {
    forall id :: id in byLeaf ==> Clean(id)
  }

  // The same leaves, whatever their leaf domains.
  ghost predicate SameFacts(a: map<string, Leaf>, b: map<string, Leaf>) {
    && a.Keys == b.Keys
    && forall id :: id in a ==> a[id] == b[id].(leafDomain := a[id].leafDomain, leafDomainLeaves := a[id].leafDomainLeaves)
  }

  function Peers(leaf: Leaf): set<string> {
    Unique(leaf.peers)
  }

  lemma MembersOfClean(id: string, leaf: Leaf)
    requires Clean(id)
    ensures Members(id, leaf) == {id} + Peers(leaf)
    ensures forall m :: m in Members(id, leaf) ==> Clean(m)
  {
    TrimIdempotent(id);
    UniqueIsClean({id} + leaf.peers);
  }

  lemma FitsSame(a: map<string, Leaf>, b: map<string, Leaf>, mode: Mode, id: string, members: set<string>)
    requires SameFacts(a, b) && id in a
    ensures forall m :: Fits(a, mode, id, members, m) <==> Fits(b, mode, id, members, m)
  {
  }

  // A leaf that fits its block brings the whole block with it: all its members see the same block.
  lemma ConsistentSpreads(byLeaf: map<string, Leaf>, mode: Mode, id: string, member: string)
    requires id in byLeaf && Consistent(byLeaf, mode, id) && member in Members(id, byLeaf[id])
    ensures member in byLeaf && Members(member, byLeaf[member]) == Members(id, byLeaf[id])
    ensures Consistent(byLeaf, mode, member)
  {
    var members := Members(id, byLeaf[id]);
    assert Fits(byLeaf, mode, id, members, member);
    UniqueIsClean({id} + byLeaf[id].peers);
    UniqueOfClean(members - {member});
    MembersOfClean(member, byLeaf[member]);
    assert {member} + (members - {member}) == members;
    forall m | m in members ensures Fits(byLeaf, mode, member, members, m) {
      assert Fits(byLeaf, mode, id, members, m);
    }
  }

  method CheckMembers(byLeaf: map<string, Leaf>, mode: Mode, id: string, members: set<string>) returns (ok: bool)
    requires id in byLeaf
    ensures ok <==> forall m :: m in members ==> Fits(byLeaf, mode, id, members, m)
  {
    var todo := members;
    while todo != {}
      invariant todo <= members
      invariant forall m :: m in members - todo ==> Fits(byLeaf, mode, id, members, m)
      decreases todo
    {
      var member :| member in todo;
      todo := todo - {member};
      if member !in byLeaf {
        return false;
      }
      var expected := members - {member};
      if Unique(byLeaf[member].peers) != Unique(expected) {
        return false;
      }
      if byLeaf[member].room != byLeaf[id].room {
        return false;
      }
      if mode == UplinkCompatible && byLeaf[member].uplinkDomain != byLeaf[id].uplinkDomain {
        return false;
      }
      if mode == Layered && (byLeaf[member].spineDomain != byLeaf[id].spineDomain || byLeaf[member].borderDomain != byLeaf[id].borderDomain) {
        return false;
      }
    }
    ok := true;
  }

  method SetDomain(byLeaf: map<string, Leaf>, members: set<string>, domain: Id) returns (result: map<string, Leaf>)
    requires members <= byLeaf.Keys
    ensures result == map id | id in byLeaf ::
              if id in members then byLeaf[id].(leafDomain := domain, leafDomainLeaves := members) else byLeaf[id]
  {
    result := byLeaf;
    var todo := members;
    while todo != {}
      invariant todo <= members
      invariant result == map id | id in byLeaf ::
                  if id in members - todo then byLeaf[id].(leafDomain := domain, leafDomainLeaves := members) else byLeaf[id]
      decreases todo
    {
      var id :| id in todo;
      todo := todo - {id};
      result := result[id := result[id].(leafDomain := domain, leafDomainLeaves := members)];
    }
  }

  // The id of a block, as the turn of leaf x gives it.
  function BlockDomain(x: string, members: set<string>): Id {
    if |members| > 1 then PairOf(members) else if x == "" then NoId else Name(x)
  }

  // The leaf carries its block, under an id given by a leaf that sees the same block.
  ghost predicate InBlock(input: map<string, Leaf>, id: string, leaf: Leaf)
    requires id in input
  {
    leaf.leafDomainLeaves == Members(id, input[id]) && exists x :: NamedBy(input, id, leaf, x)
  }

  predicate NamedBy(input: map<string, Leaf>, id: string, leaf: Leaf, x: string)
    requires id in input
  {
    x in input && Members(x, input[x]) == Members(id, input[id]) && leaf.leafDomain == BlockDomain(x, Members(id, input[id]))
  }

  // What the scan makes of every leaf: clean ids are in their block, ids with surrounding blanks are passed over.
  ghost predicate Blocked(input: map<string, Leaf>, byLeaf: map<string, Leaf>) {
    && SameFacts(byLeaf, input)
    && forall id :: id in input ==> if Clean(id) then InBlock(input, id, byLeaf[id]) else byLeaf[id] == input[id]
  }

  // What the scan has written when `scan` is still to be looked at.
  ghost predicate Progress(input: map<string, Leaf>, byLeaf: map<string, Leaf>, processed: set<string>, scan: set<string>) {
    && processed <= input.Keys && SameFacts(byLeaf, input)
    && (forall id :: id in processed ==> Clean(id) && InBlock(input, id, byLeaf[id]))
    && (forall id :: id in input && id !in processed ==> byLeaf[id] == input[id])
    && (forall id :: id in input && id !in scan && Clean(id) ==> id in processed)
  }

  lemma ProgressBlock(input: map<string, Leaf>, before: map<string, Leaf>, byLeaf: map<string, Leaf>,
                      processed: set<string>, scan: set<string>, leafId: string, members: set<string>)
    requires leafId in input && Progress(input, before, processed, scan) && leafId in scan
    requires members == Members(leafId, input[leafId]) && byLeaf == Stamped(before, leafId, members)
    requires forall m :: m in members ==> m in input && Clean(m) && Members(m, input[m]) == members
    requires Clean(leafId) ==> leafId in members
    ensures Progress(input, byLeaf, processed + members, scan - {leafId}) && SameFacts(byLeaf, input)
  {
    hide Members, Clean, InBlock, BlockDomain;
    forall m | m in members ensures InBlock(input, m, byLeaf[m]) {
      StampedInBlock(input, before[m], m, leafId, members);
    }
    assert forall id :: id in input && id !in members ==> byLeaf[id] == before[id];
  }

  lemma StampedInBlock(input: map<string, Leaf>, leaf: Leaf, id: string, x: string, members: set<string>)
    requires id in input && x in input && Members(x, input[x]) == Members(id, input[id]) == members
    ensures InBlock(input, id, leaf.(leafDomain := BlockDomain(x, members), leafDomainLeaves := members))
  {
    hide Members, BlockDomain;
    assert NamedBy(input, id, leaf.(leafDomain := BlockDomain(x, members), leafDomainLeaves := members), x);
  }

  function Stamped(byLeaf: map<string, Leaf>, leafId: string, members: set<string>): map<string, Leaf> {
    map id | id in byLeaf ::
      if id in members
      then byLeaf[id].(leafDomain := BlockDomain(leafId, members), leafDomainLeaves := members)
      else byLeaf[id]
  }

  ghost function Good(input: map<string, Leaf>, mode: Mode): set<string> {
    set id | id in input && Consistent(input, mode, id)
  }

  // One turn of the scan: build the candidate block, check its members, give them their domain.
  method PlaceLeaf(ghost input: map<string, Leaf>, byLeaf: map<string, Leaf>, mode: Mode, leafId: string)
    returns (ok: bool, result: map<string, Leaf>, members: set<string>)
    requires SameFacts(byLeaf, input) && leafId in input
    ensures members == Members(leafId, input[leafId])
    ensures ok <==> leafId in Good(input, mode)
    ensures ok ==> result == Stamped(byLeaf, leafId, members)
  {
    members := Members(leafId, byLeaf[leafId]);
    result := byLeaf;
    FitsSame(byLeaf, input, mode, leafId, members);
    if |members| > 2 {
      return false, result, members;
    }
    ok := CheckMembers(byLeaf, mode, leafId, members);
    if ok {
      assert forall m :: m in members ==> Fits(byLeaf, mode, leafId, members, m);
      result := SetDomain(byLeaf, members, BlockDomain(leafId, members));
    }
  }

  ghost predicate Scanning(input: map<string, Leaf>, mode: Mode, byLeaf: map<string, Leaf>, processed: set<string>, scan: set<string>) {
    && scan <= input.Keys && SameFacts(byLeaf, input)
    && Progress(input, byLeaf, processed, scan)
    && processed + (input.Keys - scan) <= Good(input, mode)
  }

  lemma ScanSkips(input: map<string, Leaf>, mode: Mode, byLeaf: map<string, Leaf>, processed: set<string>, scan: set<string>, leafId: string)
    requires Scanning(input, mode, byLeaf, processed, scan) && leafId in scan && leafId in processed
    ensures Scanning(input, mode, byLeaf, processed, scan - {leafId})
  {
  }

  // Scanning one leaf that fits its block settles the whole block.
  lemma ScanStep(input: map<string, Leaf>, mode: Mode, before: map<string, Leaf>, byLeaf: map<string, Leaf>,
                 processed: set<string>, scan: set<string>, leafId: string, members: set<string>)
    requires Scanning(input, mode, before, processed, scan) && leafId in scan
    requires leafId in Good(input, mode) && members == Members(leafId, input[leafId])
    requires byLeaf == Stamped(before, leafId, members)
    ensures Scanning(input, mode, byLeaf, processed + members, scan - {leafId})
  {
    hide Consistent, Members, Clean, InBlock, Progress, SameFacts;
    BlockIsGood(input, mode, leafId);
    BlockIsProcessed(input, mode, leafId);
    ProgressBlock(input, before, byLeaf, processed, scan, leafId, members);
  }

  lemma BlockIsGood(input: map<string, Leaf>, mode: Mode, leafId: string)
    requires leafId in input && Consistent(input, mode, leafId)
    ensures Members(leafId, input[leafId]) <= Good(input, mode)
  {
    hide Members, Consistent, Clean;
    BlockIsProcessed(input, mode, leafId);
  }

  lemma ScanEnds(input: map<string, Leaf>, mode: Mode, byLeaf: map<string, Leaf>, processed: set<string>)
    requires Scanning(input, mode, byLeaf, processed, {})
    ensures AllConsistent(input, mode) && Blocked(input, byLeaf)
  {
    hide Consistent, Clean, InBlock;
    GoodEverywhere(input, mode, processed + (input.Keys - {}));
  }

  lemma GoodEverywhere(input: map<string, Leaf>, mode: Mode, ids: set<string>)
    requires input.Keys <= ids <= Good(input, mode)
    ensures AllConsistent(input, mode)
  {
    forall id | id in input ensures Consistent(input, mode, id) {
      assert id in Good(input, mode);
    }
  }

  // Leaves are scanned in whatever order the set gives them; the outcome is the same for every order.
  method AssignLeafDomains(input: map<string, Leaf>, mode: Mode) returns (ok: bool, byLeaf: map<string, Leaf>)
    ensures ok <==> AllConsistent(input, mode)
    ensures ok ==> Blocked(input, byLeaf)
    ensures ok && CleanKeys(input) ==> byLeaf == Assigned(input)
  {
    byLeaf := input;
    var processed: set<string> := {};
    var scan := input.Keys;
    while scan != {}
      invariant Scanning(input, mode, byLeaf, processed, scan)
      decreases scan
    {
      var leafId :| leafId in scan;
      if leafId in processed {
        ScanSkips(input, mode, byLeaf, processed, scan, leafId);
        scan := scan - {leafId};
        continue;
      }
      ghost var before := byLeaf;
      var members;
      ok, byLeaf, members := PlaceLeaf(input, byLeaf, mode, leafId);
      if !ok {
        return;
      }
      ScanStep(input, mode, before, byLeaf, processed, scan, leafId, members);
      processed, scan := processed + members, scan - {leafId};
    }
    ScanEnds(input, mode, byLeaf, processed);
    if CleanKeys(input) { BlockedIsAssigned(input, byLeaf); }
    ok := true;
  }

  lemma BlockIsProcessed(input: map<string, Leaf>, mode: Mode, leafId: string)
    requires leafId in input && Consistent(input, mode, leafId)
    ensures forall m :: m in Members(leafId, input[leafId]) ==>
              m in input && Clean(m) && Consistent(input, mode, m) && Members(m, input[m]) == Members(leafId, input[leafId])
    ensures Clean(leafId) ==> leafId in Members(leafId, input[leafId])
  {
    UniqueIsClean({leafId} + input[leafId].peers);
    TrimIdempotent(leafId);
    forall m | m in Members(leafId, input[leafId])
      ensures m in input && Consistent(input, mode, m) && Members(m, input[m]) == Members(leafId, input[leafId])
    {
      ConsistentSpreads(input, mode, leafId, m);
    }
  }

  // With clean ids the block's id does not depend on who gave it.
  lemma BlockedIsAssigned(input: map<string, Leaf>, byLeaf: map<string, Leaf>)
    requires CleanKeys(input) && Blocked(input, byLeaf)
    ensures byLeaf == Assigned(input)
  {
    hide Members, Clean, InBlock;
    forall id | id in input ensures byLeaf[id] == Paired(id, input[id]) {
      assert InBlock(input, id, byLeaf[id]);
      OwnName(input, byLeaf, id);
    }
  }

  lemma OwnName(input: map<string, Leaf>, byLeaf: map<string, Leaf>, id: string)
    requires CleanKeys(input) && SameFacts(byLeaf, input) && id in input && InBlock(input, id, byLeaf[id])
    ensures byLeaf[id] == Paired(id, input[id])
  {
    hide Members;
    var members := Members(id, input[id]);
    var x :| NamedBy(input, id, byLeaf[id], x);
    MembersOfClean(id, input[id]);
    MembersOfClean(x, input[x]);
    assert id in members && x in members;
    if |members| <= 1 && x != id { TwoElements(id, x, members); }
  }

  lemma TwoElements(a: string, b: string, s: set<string>)
    requires a != b && a in s && b in s
    ensures |s| >= 2
  {
    assert |s| >= |{a, b}| by { assert s == {a, b} + (s - {a, b}); }
  }

  // ---- What success means ----

  // The peer relation is irreflexive, symmetric and of degree at most one, and joins only leaves that share
  // room and uplink domains.
  ghost predicate ProperPeers(byLeaf: map<string, Leaf>, mode: Mode) {
    && (forall a :: a in byLeaf ==> a !in Peers(byLeaf[a]))
    && (forall a, b, c :: a in byLeaf && b in Peers(byLeaf[a]) && c in Peers(byLeaf[a]) ==> b == c)
    && (forall a, b :: a in byLeaf && b in Peers(byLeaf[a]) ==>
          b in byLeaf && a in Peers(byLeaf[b]) && byLeaf[b].room == byLeaf[a].room && SameUplink(mode, byLeaf[b], byLeaf[a]))
  }

  lemma ConsistentIsProper(byLeaf: map<string, Leaf>, mode: Mode, a: string)
    requires a in byLeaf && Clean(a) && Consistent(byLeaf, mode, a)
    ensures a !in Peers(byLeaf[a])
    ensures forall b, c :: b in Peers(byLeaf[a]) && c in Peers(byLeaf[a]) ==> b == c
    ensures forall b :: b in Peers(byLeaf[a]) ==>
              b in byLeaf && a in Peers(byLeaf[b]) && byLeaf[b].room == byLeaf[a].room && SameUplink(mode, byLeaf[b], byLeaf[a])
  {
    var members := Members(a, byLeaf[a]);
    MembersOfClean(a, byLeaf[a]);
    assert Fits(byLeaf, mode, a, members, a);
    UniqueOfClean(members - {a});
    forall b, c | b in Peers(byLeaf[a]) && c in Peers(byLeaf[a]) ensures b == c {
      if b != c { ThreeElements(a, b, c, members); }
    }
    forall b | b in Peers(byLeaf[a])
      ensures b in byLeaf && a in Peers(byLeaf[b]) && byLeaf[b].room == byLeaf[a].room && SameUplink(mode, byLeaf[b], byLeaf[a])
    {
      assert Fits(byLeaf, mode, a, members, b);
      UniqueOfClean(members - {b});
    }
  }

  lemma ThreeElements(a: string, b: string, c: string, s: set<string>)
    requires a != b && a != c && b != c && {a, b, c} <= s
    ensures |s| >= 3
  {
    assert s == {a, b, c} + (s - {a, b, c});
  }

  // In a block of clean ids the check compares the peers with the rest of the block.
  lemma FitsClean(byLeaf: map<string, Leaf>, mode: Mode, id: string, members: set<string>, member: string)
    requires id in byLeaf && member in byLeaf && forall m :: m in members ==> Clean(m)
    requires Peers(byLeaf[member]) == members - {member}
    requires byLeaf[member].room == byLeaf[id].room && SameUplink(mode, byLeaf[member], byLeaf[id])
    ensures Fits(byLeaf, mode, id, members, member)
  {
    UniqueOfClean(members - {member});
  }

  lemma ProperIsConsistent(byLeaf: map<string, Leaf>, mode: Mode, a: string)
    requires CleanKeys(byLeaf) && ProperPeers(byLeaf, mode) && a in byLeaf
    ensures Consistent(byLeaf, mode, a)
  {
    hide Clean, Fits, Peers, Members, SameUplink;
    MembersOfClean(a, byLeaf[a]);
    var peers := Peers(byLeaf[a]);
    if b :| b in peers {
      SinglePeer(byLeaf, mode, a, b);
      assert Members(a, byLeaf[a]) == {a, b};
      PairFits(byLeaf, mode, a, b);
    } else {
      assert Members(a, byLeaf[a]) == {a};
      assert {a} - {a} == peers;
      FitsClean(byLeaf, mode, a, {a}, a);
    }
  }

  lemma PairFits(byLeaf: map<string, Leaf>, mode: Mode, a: string, b: string)
    requires a in byLeaf && b in byLeaf && a != b && Clean(a) && Clean(b)
    requires Peers(byLeaf[a]) == {b} && Peers(byLeaf[b]) == {a}
    requires byLeaf[b].room == byLeaf[a].room && SameUplink(mode, byLeaf[b], byLeaf[a])
    ensures Fits(byLeaf, mode, a, {a, b}, a) && Fits(byLeaf, mode, a, {a, b}, b)
  {
    assert {a, b} - {a} == {b} && {a, b} - {b} == {a};
    FitsClean(byLeaf, mode, a, {a, b}, a);
    FitsClean(byLeaf, mode, a, {a, b}, b);
  }

  lemma SinglePeer(byLeaf: map<string, Leaf>, mode: Mode, a: string, b: string)
    requires ProperPeers(byLeaf, mode) && a in byLeaf && b in Peers(byLeaf[a])
    ensures a != b && b in byLeaf && Peers(byLeaf[a]) == {b} && Peers(byLeaf[b]) == {a}
    ensures byLeaf[b].room == byLeaf[a].room && SameUplink(mode, byLeaf[b], byLeaf[a])
  {
    var pa, pb := Peers(byLeaf[a]), Peers(byLeaf[b]);
    assert forall c :: c in pa ==> c == b;
    assert a in pb;
    assert forall c :: c in pb ==> c == a;
  }

  // With clean leaf ids assignLeafDomains succeeds exactly when the peer relation is proper.
  lemma SucceedsExactly(byLeaf: map<string, Leaf>, mode: Mode)
    requires CleanKeys(byLeaf)
    ensures AllConsistent(byLeaf, mode) <==> ProperPeers(byLeaf, mode)
  {
    if AllConsistent(byLeaf, mode) {
      forall a | a in byLeaf
        ensures a !in Peers(byLeaf[a])
        ensures forall b, c :: b in Peers(byLeaf[a]) && c in Peers(byLeaf[a]) ==> b == c
        ensures forall b :: b in Peers(byLeaf[a]) ==>
                  b in byLeaf && a in Peers(byLeaf[b]) && byLeaf[b].room == byLeaf[a].room && SameUplink(mode, byLeaf[b], byLeaf[a])
      {
        ConsistentIsProper(byLeaf, mode, a);
      }
    }
    if ProperPeers(byLeaf, mode) {
      forall a | a in byLeaf ensures Consistent(byLeaf, mode, a) {
        ProperIsConsistent(byLeaf, mode, a);
      }
    }
  }

  // ---- Leaf ids with surrounding blanks ----

  // Over every topology with these leaf ids, success means a proper peer relation.
  ghost predicate SuccessMeansProper(ids: set<string>, mode: Mode) {
    forall byLeaf: map<string, Leaf> :: byLeaf.Keys == ids ==> (AllConsistent(byLeaf, mode) <==> ProperPeers(byLeaf, mode))
  }

  function Bare(room: string, peers: set<string>): Leaf {
    Leaf("", "", "", room, "", {}, {}, peers, NoId, NoId, NoId, NoId, {})
  }

  // A leaf whose trimmed id names no leaf that fits with it is refused, although it has no peers.
  lemma PaddedLeafRefused(byLeaf: map<string, Leaf>, mode: Mode, id: string)
    requires id in byLeaf && !Clean(id) && Trim(id) != ""
    requires Trim(id) in byLeaf ==> byLeaf[Trim(id)].room != byLeaf[id].room
    ensures !AllConsistent(byLeaf, mode)
  {
    var members := Members(id, byLeaf[id]);
    assert Trim(id) in members by { assert id in {id} + byLeaf[id].peers; }
    assert !Fits(byLeaf, mode, id, members, Trim(id));
    assert !Consistent(byLeaf, mode, id);
  }

  lemma NoPeersIsProper(byLeaf: map<string, Leaf>, mode: Mode)
    requires forall id :: id in byLeaf ==> byLeaf[id].peers == {}
    ensures ProperPeers(byLeaf, mode)
  {
    assert forall id :: id in byLeaf ==> Peers(byLeaf[id]) == {};
  }

  // A blank leaf id may have a peer that does not know it.
  lemma BlankLeafAccepted(byLeaf: map<string, Leaf>, mode: Mode, blank: string, a: string)
    requires blank in byLeaf && a in byLeaf && Trim(blank) == "" && Clean(a) && byLeaf[blank].peers == {a}
    requires forall id :: id in byLeaf ==> Clean(id) || Trim(id) == ""
    requires forall id :: id in byLeaf && id != blank ==> byLeaf[id].peers == {}
    requires byLeaf[blank].room == byLeaf[a].room && SameUplink(mode, byLeaf[a], byLeaf[blank])
    ensures AllConsistent(byLeaf, mode) && !ProperPeers(byLeaf, mode)
  {
    TrimIdempotent(a);
    forall id | id in byLeaf ensures Consistent(byLeaf, mode, id) {
      if id == blank {
        assert Members(id, byLeaf[id]) == {a} by { assert a in {id} + byLeaf[id].peers; }
        AloneFits(byLeaf, mode, id, a);
      } else if Clean(id) {
        TrimIdempotent(id);
        assert Members(id, byLeaf[id]) == {id} by { assert id in {id} + byLeaf[id].peers; }
        AloneFits(byLeaf, mode, id, id);
      } else {
        assert Members(id, byLeaf[id]) == {};
      }
    }
    assert a in Peers(byLeaf[blank]) by { assert a in byLeaf[blank].peers; }
    assert Peers(byLeaf[a]) == {};
  }

  lemma AloneFits(byLeaf: map<string, Leaf>, mode: Mode, id: string, member: string)
    requires id in byLeaf && member in byLeaf && byLeaf[member].peers == {}
    requires byLeaf[member].room == byLeaf[id].room && SameUplink(mode, byLeaf[member], byLeaf[id])
    ensures Fits(byLeaf, mode, id, {member}, member)
  {
    assert {member} - {member} == {};
  }

  // A block of blank ids has no member in the topology, so no leaf may have a peer.
  lemma BlankIdsProperly(byLeaf: map<string, Leaf>, mode: Mode)
    requires forall id :: id in byLeaf ==> Trim(id) == ""
    ensures AllConsistent(byLeaf, mode) <==> ProperPeers(byLeaf, mode)
  {
    hide ProperPeers, Consistent, Peers, Members;
    if forall id :: id in byLeaf ==> Peers(byLeaf[id]) == {} {
      forall id | id in byLeaf ensures Consistent(byLeaf, mode, id) {
        BlankConsistent(byLeaf, mode, id);
      }
      LonelyIsProper(byLeaf, mode);
    } else {
      var id, m :| id in byLeaf && m in Peers(byLeaf[id]);
      UniqueIsClean(byLeaf[id].peers);
      TrimIdempotent(m);
      BlankConsistent(byLeaf, mode, id);
      PeerIsKnown(byLeaf, mode, id, m);
    }
  }

  lemma PeerIsKnown(byLeaf: map<string, Leaf>, mode: Mode, id: string, m: string)
    requires id in byLeaf && m in Peers(byLeaf[id])
    ensures ProperPeers(byLeaf, mode) ==> m in byLeaf
  {
    hide Peers;
  }

  lemma LonelyIsProper(byLeaf: map<string, Leaf>, mode: Mode)
    requires forall id :: id in byLeaf ==> Peers(byLeaf[id]) == {}
    ensures ProperPeers(byLeaf, mode)
  {
    hide Peers;
  }

  lemma BlankConsistent(byLeaf: map<string, Leaf>, mode: Mode, id: string)
    requires id in byLeaf && forall i :: i in byLeaf ==> Trim(i) == ""
    ensures Consistent(byLeaf, mode, id) <==> Peers(byLeaf[id]) == {}
    ensures forall m :: m in Peers(byLeaf[id]) ==> Clean(m)
  {
    var members := Members(id, byLeaf[id]);
    UniqueIsClean(byLeaf[id].peers);
    assert members == Peers(byLeaf[id]) by {
      assert forall v :: v in byLeaf[id].peers ==> v in {id} + byLeaf[id].peers;
    }
    if m :| m in members {
      TrimIdempotent(m);
      assert !Fits(byLeaf, mode, id, members, m);
    }
  }

  // Main result: assignLeafDomains succeeds exactly when the peer relation is proper, for every topology over these
  // leaf ids, if and only if the ids are all free of surrounding blanks or all blank. (The scan trims the ids of a
  // block's members, but not the ids it scans.)
  lemma SuccessMeansProperExactly(ids: set<string>, mode: Mode)
    ensures SuccessMeansProper(ids, mode) <==> (forall id :: id in ids ==> Clean(id)) || (forall id :: id in ids ==> Trim(id) == "")
  {
    hide Clean, Trim, ProperPeers, AllConsistent, SameUplink;
    if forall id :: id in ids ==> Clean(id) {
      forall byLeaf: map<string, Leaf> | byLeaf.Keys == ids ensures AllConsistent(byLeaf, mode) <==> ProperPeers(byLeaf, mode) {
        SucceedsExactly(byLeaf, mode);
      }
    } else if forall id :: id in ids ==> Trim(id) == "" {
      forall byLeaf: map<string, Leaf> | byLeaf.Keys == ids ensures AllConsistent(byLeaf, mode) <==> ProperPeers(byLeaf, mode) {
        BlankIdsProperly(byLeaf, mode);
      }
    } else if id :| id in ids && !Clean(id) && Trim(id) != "" {
      PaddedIdBreaks(ids, mode, id);
    } else {
      var blank :| blank in ids && !Clean(blank);
      var a :| a in ids && Trim(a) != "";
      BlankIdBreaks(ids, mode, blank, a);
    }
  }

  // Leaves without peers, each in a room of its own.
  lemma PaddedIdBreaks(ids: set<string>, mode: Mode, id: string)
    requires id in ids && !Clean(id) && Trim(id) != ""
    ensures !SuccessMeansProper(ids, mode)
  {
    hide ProperPeers, AllConsistent, SameUplink;
    var byLeaf := map i | i in ids :: Bare(i, {});
    TrimIdempotent(id);
    NoPeersIsProper(byLeaf, mode);
    PaddedLeafRefused(byLeaf, mode, id);
    assert byLeaf.Keys == ids;
  }

  // Leaves without peers in one room, but for the blank one.
  lemma BlankIdBreaks(ids: set<string>, mode: Mode, blank: string, a: string)
    requires blank in ids && a in ids && Trim(blank) == "" && Clean(a)
    requires forall id :: id in ids ==> Clean(id) || Trim(id) == ""
    ensures !SuccessMeansProper(ids, mode)
  {
    hide ProperPeers, AllConsistent, Clean, Trim;
    var byLeaf := map i | i in ids :: Bare("", if i == blank then {a} else {});
    BlankLeafAccepted(byLeaf, mode, blank, a);
    assert byLeaf.Keys == ids;
  }

  // The two concrete inputs: a padded id without peers is refused, a blank one with a one-sided peer is accepted.
  lemma BlanksBreakBothWays(room: string, mode: Mode)
    ensures var padded := map[" L" := Bare(room, {})];
            ProperPeers(padded, mode) && !AllConsistent(padded, mode)
    ensures var blank := map[" " := Bare(room, {"A"}), "A" := Bare(room, {})];
            AllConsistent(blank, mode) && !ProperPeers(blank, mode)
  {
    TrimOfL();
    var padded := map[" L" := Bare(room, {})];
    NoPeersIsProper(padded, mode);
    PaddedLeafRefused(padded, mode, " L");
    var blank := map[" " := Bare(room, {"A"}), "A" := Bare(room, {})];
    BlankLeafAccepted(blank, mode, " ", "A");
  }

  lemma TrimOfL()
    ensures Trim(" L") == "L"
  {
    assert " L"[1..] == "L";
    assert TrimLeft(" L") == TrimLeft("L");
  }

  // ---- The result ----

  // Main result: the result is a partition of the leaves into blocks of one or two, two leaves carry the same
  // domain id exactly when they are in one block, and then they share room and uplink domains. (Other leaves may
  // have ids with surrounding blanks: they only lend a single leaf their id.)
  lemma DomainsPartitionLeaves(input: map<string, Leaf>, mode: Mode, r: map<string, Leaf>, a: string, b: string)
    requires AllConsistent(input, mode) && Blocked(input, r) && a in input && b in input && Clean(a) && Clean(b)
    ensures a in r[a].leafDomainLeaves && 1 <= |r[a].leafDomainLeaves| <= 2 && r[a].leafDomainLeaves <= input.Keys
    ensures r[a].leafDomain == r[b].leafDomain <==> r[a].leafDomainLeaves == r[b].leafDomainLeaves
    ensures r[a].leafDomainLeaves == r[b].leafDomainLeaves || r[a].leafDomainLeaves !! r[b].leafDomainLeaves
    ensures r[a].leafDomain == r[b].leafDomain ==> r[a].room == r[b].room && SameUplink(mode, r[a], r[b])
  {
    hide Members, Consistent, Clean, SameUplink;
    var ma, mb := Members(a, input[a]), Members(b, input[b]);
    Block(input, mode, a);
    Block(input, mode, b);
    BlockNames(input, r, a, b);
    if m :| m in ma && m in mb {
      assert ma == mb;
    }
    if ma == mb {
      assert b in ma;
      SameUplinkOfSame(mode, input[a], input[b], r[a], r[b]);
    }
  }

  lemma SameUplinkOfSame(mode: Mode, a: Leaf, b: Leaf, ra: Leaf, rb: Leaf)
    requires SameUplink(mode, a, b)
    requires ra == a.(leafDomain := ra.leafDomain, leafDomainLeaves := ra.leafDomainLeaves)
    requires rb == b.(leafDomain := rb.leafDomain, leafDomainLeaves := rb.leafDomainLeaves)
    ensures SameUplink(mode, ra, rb)
  {
  }

  // Equal ids mean equal blocks, whoever gave them.
  lemma BlockNames(input: map<string, Leaf>, r: map<string, Leaf>, a: string, b: string)
    requires Blocked(input, r) && a in input && b in input && Clean(a) && Clean(b)
    requires a in Members(a, input[a]) && b in Members(b, input[b])
    ensures r[a].leafDomainLeaves == Members(a, input[a]) && r[b].leafDomainLeaves == Members(b, input[b])
    ensures r[a].leafDomain == r[b].leafDomain <==> Members(a, input[a]) == Members(b, input[b])
  {
    hide Members, Clean;
    var ma, mb := Members(a, input[a]), Members(b, input[b]);
    assert InBlock(input, a, r[a]) && InBlock(input, b, r[b]);
    var x :| NamedBy(input, a, r[a], x);
    var y :| NamedBy(input, b, r[b], y);
    if ma == mb && a != b {
      TwoElements(a, b, ma);
    }
  }

  // A leaf's block: its members see the same block and agree with it on room and uplink domains.
  lemma Block(byLeaf: map<string, Leaf>, mode: Mode, a: string)
    requires AllConsistent(byLeaf, mode) && a in byLeaf && Clean(a)
    ensures var members := Members(a, byLeaf[a]);
            && a in members && 1 <= |members| <= 2
            && forall m :: m in members ==>
                 m in byLeaf && Members(m, byLeaf[m]) == members
                 && byLeaf[m].room == byLeaf[a].room && SameUplink(mode, byLeaf[a], byLeaf[m])
  {
    var members := Members(a, byLeaf[a]);
    MembersOfClean(a, byLeaf[a]);
    forall m | m in members
      ensures m in byLeaf && Members(m, byLeaf[m]) == members
              && byLeaf[m].room == byLeaf[a].room && SameUplink(mode, byLeaf[a], byLeaf[m])
    {
      BlockMember(byLeaf, mode, a, members, m);
    }
    assert |members - {a}| < |members|;
  }

  lemma BlockMember(byLeaf: map<string, Leaf>, mode: Mode, a: string, members: set<string>, m: string)
    requires a in byLeaf && Consistent(byLeaf, mode, a) && members == Members(a, byLeaf[a]) && a in members && m in members
    ensures m in byLeaf && Members(m, byLeaf[m]) == members
    ensures byLeaf[m].room == byLeaf[a].room && SameUplink(mode, byLeaf[a], byLeaf[m])
  {
    ConsistentSpreads(byLeaf, mode, a, m);
    assert Fits(byLeaf, mode, a, members, m);
  }

  // Every leaf gets its domain exactly when all leaf ids are clean: a leaf id with surrounding blanks is passed over.
  lemma EveryLeafAssignedExactly(input: map<string, Leaf>, byLeaf: map<string, Leaf>)
    requires Blocked(input, byLeaf) && forall id :: id in input ==> input[id].leafDomain == NoId
    ensures (forall id :: id in byLeaf ==> byLeaf[id].leafDomain != NoId) <==> CleanKeys(input)
  {
    hide Members;
    if CleanKeys(input) {
      forall id | id in byLeaf ensures byLeaf[id].leafDomain != NoId { OwnName(input, byLeaf, id); }
    } else {
      var id :| id in input && !Clean(id);
      assert id in byLeaf && byLeaf[id].leafDomain == NoId;
    }
  }

  // The blocks exist whenever the leaves are consistent; this is what the scan finds if it visits clean ids last.
  function Settled(input: map<string, Leaf>): map<string, Leaf> {
    map id | id in input :: if Clean(id) then Paired(id, input[id]) else input[id]
  }

  lemma SettledIsBlocked(input: map<string, Leaf>)
    ensures Blocked(input, Settled(input))
  {
    hide Members;
    forall id | id in input && Clean(id) ensures InBlock(input, id, Settled(input)[id]) {
      assert NamedBy(input, id, Settled(input)[id], id);
    }
  }

  // The malformed input is really accepted.
  lemma BlankLeafIdStaysUnassigned(leaf: Leaf, mode: Mode)
    requires leaf.peers == {}
    ensures AllConsistent(map[" " := leaf], mode)
  {
    assert Trim(" ") == "";
    assert Members(" ", leaf) == {};
  }
}
