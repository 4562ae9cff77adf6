/**
The compiled topology against the configuration it is built from: buildCache in algorithm_server/go/topology/source.go
as a whole, in terms of the scopes and adjacencies that were configured.
*/
module TopologyConfigured {
  import opened Wrappers
  import opened Text
  import opened LeafDomains
  import opened TopologySource
  import opened TopologyCache

  // ---- What the cache says of a configured leaf ----

  // The leaves of a compiled topology are those configured in some room.
  lemma LeavesAreConfigured(c: Config, read: Leaves, cache: Cache, leaf: string)
    requires Compiled(c, read, cache)
    ensures leaf in cache.byLeaf <==> exists room :: HasLeaf(c, room, leaf)
  {
    hide AllConsistent, Table, ScopesLinked;
    CompiledKeys(c, read, cache);
    if leaf in read {
      var room :| room in c.topology.Keys && HasLeaf(c, room, leaf);
    }
    if room :| HasLeaf(c, room, leaf) {
      assert room in c.topology.Keys;
    }
  }

  // Its switches and peers are the configured ones, its scopes those that the room lies in, its domains named by them.
  ghost predicate IsConfigured(c: Config, room: string, id: string, leaf: Leaf)
    requires HasLeaf(c, room, id)
  {
    var links := c.topology[room][id];
    && leaf.switch == id && leaf.spines == links.spines && leaf.borders == links.borders && leaf.peers == links.leaves
    && leaf.room == room && room in c.rooms && leaf.dataCenter == c.rooms[room]
    && leaf.dataCenter in c.dataCenters && leaf.location == c.dataCenters[leaf.dataCenter]
    && leaf.location in c.locations && leaf.region == c.locations[leaf.location]
    && leaf.spineDomain == (if links.spines == {} then NoId else SpinesOf(links.spines))
    && leaf.borderDomain == BorderDomainOf(c, room, links.borders)
  }

  lemma LeafIsConfigured(c: Config, read: Leaves, cache: Cache, room: string, id: string)
    requires Compiled(c, read, cache) && HasLeaf(c, room, id)
    ensures id in cache.byLeaf && IsConfigured(c, room, id, cache.byLeaf[id])
  {
    LeavesAreConfigured(c, read, cache, id);
    hide AllConsistent, Table, Filled;
    CompiledField(c, read, cache, id);
    assert room in c.topology.Keys && read[id] == ReadLeaf(c, room, id);
  }

  // The uplink domain stands for both domains, or the one there is; a layered topology has none.
  lemma UplinkIsConfigured(c: Config, read: Leaves, cache: Cache, id: string)
    requires Compiled(c, read, cache) && id in cache.byLeaf
    ensures var leaf := cache.byLeaf[id];
            && (cache.mode == Layered ==> leaf.uplinkDomain == NoId)
            && (cache.mode == UplinkCompatible && leaf.spines != {} && leaf.borders != {} ==> leaf.uplinkDomain == BothOf(leaf.spineDomain, leaf.borderDomain))
            && (cache.mode == UplinkCompatible && leaf.spines == {} ==> leaf.uplinkDomain == BorderUplink(leaf.borderDomain))
            && (cache.mode == UplinkCompatible && leaf.borders == {} ==> leaf.uplinkDomain == SpineUplink(leaf.spineDomain))
  {
    hide AllConsistent, Table, Filled, Configured, Matching;
    CompiledField(c, read, cache, id);
  }

  // A leaf with a clean id is in the block of itself and its configured peers, under the block's id.
  lemma BlockIsConfigured(c: Config, read: Leaves, cache: Cache, room: string, id: string)
    requires Compiled(c, read, cache) && HasLeaf(c, room, id) && Clean(id)
    ensures id in cache.byLeaf
    ensures cache.byLeaf[id].leafDomainLeaves == Unique({id} + c.topology[room][id].leaves)
    ensures |cache.byLeaf[id].leafDomainLeaves| > 1 ==> cache.byLeaf[id].leafDomain == PairOf(cache.byLeaf[id].leafDomainLeaves)
    ensures CleanKeys(read) && |cache.byLeaf[id].leafDomainLeaves| <= 1 ==> cache.byLeaf[id].leafDomain == Name(id)
  {
    LeafIsConfigured(c, read, cache, room, id);
    hide AllConsistent, Table, Readable, Holds, ScopesLinked, Clean, WithDomains, IsConfigured, Members;
    var input := Domained(c, cache.mode, read);
    assert InBlock(input, id, cache.byLeaf[id]);
    SameBlock(c, read, cache, room, id);
    if CleanKeys(read) {
      assert CleanKeys(input);
      OwnName(input, cache.byLeaf, id);
    }
  }

  lemma SameBlock(c: Config, read: Leaves, cache: Cache, room: string, id: string)
    requires Compiled(c, read, cache) && HasLeaf(c, room, id) && id in cache.byLeaf && IsConfigured(c, room, id, cache.byLeaf[id])
    ensures id in read && Members(id, Domained(c, cache.mode, read)[id]) == Unique({id} + c.topology[room][id].leaves)
  {
    hide Compiled;
    CompiledField(c, read, cache, id);
  }

  // The mode: compatible as soon as one configured leaf has only one kind of uplinks.
  lemma ModeIsConfigured(c: Config, read: Leaves, cache: Cache)
    requires Compiled(c, read, cache)
    ensures cache.mode == UplinkCompatible <==>
              exists room, id :: HasLeaf(c, room, id) && (c.topology[room][id].spines == {} || c.topology[room][id].borders == {})
  {
    assert cache.mode == ModeOf(read);
    if AnySingleKind(read) {
      var id :| id in read && SingleKind(read[id]);
      var room :| room in c.topology.Keys && HasLeaf(c, room, id);
      assert read[id] == ReadLeaf(c, room, id);
    }
    if room, id :| HasLeaf(c, room, id) && (c.topology[room][id].spines == {} || c.topology[room][id].borders == {}) {
      assert room in c.topology.Keys && read[id] == ReadLeaf(c, room, id);
      assert SingleKind(read[id]);
    }
  }

  // Main result: every configured leaf is in the cache with its own switches, peers and scopes, and in the block of
  // itself and its configured peers.
  lemma CacheIsConfigured(c: Config, read: Leaves, cache: Cache)
    requires Compiled(c, read, cache)
    ensures forall id :: id in cache.byLeaf <==> exists room :: HasLeaf(c, room, id)
    ensures forall room, id :: HasLeaf(c, room, id) ==> IsConfigured(c, room, id, cache.byLeaf[id])
    ensures forall room, id :: HasLeaf(c, room, id) && Clean(id) ==>
              cache.byLeaf[id].leafDomainLeaves == Unique({id} + c.topology[room][id].leaves)
  {
    hide Compiled, IsConfigured, Clean;
    forall id ensures id in cache.byLeaf <==> exists room :: HasLeaf(c, room, id) {
      LeavesAreConfigured(c, read, cache, id);
    }
    forall room, id | HasLeaf(c, room, id)
      ensures id in cache.byLeaf && IsConfigured(c, room, id, cache.byLeaf[id])
      ensures Clean(id) ==> cache.byLeaf[id].leafDomainLeaves == Unique({id} + c.topology[room][id].leaves)
    {
      LeafIsConfigured(c, read, cache, room, id);
      if Clean(id) { BlockIsConfigured(c, read, cache, room, id); }
    }
  }

  // ---- When a configuration builds ----

  ghost predicate CleanIds(c: Config) {
    forall room, id :: HasLeaf(c, room, id) ==> Clean(id)
  }

  // b is a configured peer of a: another leaf of the room that names a in turn, with the same spine switches and the
  // same border domain.
  ghost predicate PeerFits(c: Config, room: string, a: string, b: string)
    requires HasLeaf(c, room, a)
  {
    && a != b && HasLeaf(c, room, b)
    && a in Unique(c.topology[room][b].leaves)
    && c.topology[room][a].spines == c.topology[room][b].spines
    && BorderDomainOf(c, room, c.topology[room][a].borders) == BorderDomainOf(c, room, c.topology[room][b].borders)
  }

  // Every leaf has at most one peer, and that one fits.
  ghost predicate PeersFit(c: Config) {
    && (forall room, a, b :: HasLeaf(c, room, a) && b in Unique(c.topology[room][a].leaves) ==> PeerFits(c, room, a, b))
    && (forall room, a, b, d :: HasLeaf(c, room, a) && b in Unique(c.topology[room][a].leaves) && d in Unique(c.topology[room][a].leaves) ==> b == d)
  }

  ghost predicate SpinesApart(c: Config) {
    forall r, a, q, b :: HasLeaf(c, r, a) && HasLeaf(c, q, b) ==>
      c.topology[r][a].spines == c.topology[q][b].spines || c.topology[r][a].spines !! c.topology[q][b].spines
  }

  // The names of a border domain: its id and its switches.
  ghost function BorderNamesOf(c: Config, room: string, borders: set<string>): set<Id> {
    if borders == {} then {} else {BorderDomainOf(c, room, borders)} + Names(borders)
  }

  ghost predicate BordersApart(c: Config) {
    forall r, a, q, b :: HasLeaf(c, r, a) && HasLeaf(c, q, b) ==>
      BorderDomainOf(c, r, c.topology[r][a].borders) == BorderDomainOf(c, q, c.topology[q][b].borders)
      || BorderNamesOf(c, r, c.topology[r][a].borders) !! BorderNamesOf(c, q, c.topology[q][b].borders)
  }

  function AllLeaves(c: Config): set<string> {
    set room, id | room in c.topology && id in c.topology[room] :: id
  }

  ghost function RoomOf(c: Config, id: string): (room: string)
    requires id in AllLeaves(c)
    ensures HasLeaf(c, room, id)
  {
    var room :| room in c.topology && id in c.topology[room]; room
  }

  ghost function ReadAll(c: Config): Leaves
    requires ScopesLinked(c) && Readable(c)
  {
    map id | id in AllLeaves(c) :: ReadLeaf(c, RoomOf(c, id), id)
  }

  lemma ReadAllHolds(c: Config)
    requires ScopesLinked(c) && Readable(c)
    ensures Holds(c, ReadAll(c), c.topology.Keys)
    ensures ReadAll(c) != map[] <==> exists room, id :: HasLeaf(c, room, id)
  {
    forall room, id | HasLeaf(c, room, id) ensures id in ReadAll(c) && ReadAll(c)[id] == ReadLeaf(c, room, id) {
      assert id in AllLeaves(c) && RoomOf(c, id) == room;
    }
    if ReadAll(c) != map[] {
      var id :| id in ReadAll(c);
      assert HasLeaf(c, RoomOf(c, id), id);
    }
  }

  // A leaf of the topology with its switch domains, in terms of the configuration.
  lemma DomainedIsConfigured(c: Config, read: Leaves, mode: Mode, room: string, id: string)
    requires ScopesLinked(c) && Readable(c) && Holds(c, read, c.topology.Keys) && HasLeaf(c, room, id)
    ensures id in Domained(c, mode, read)
    ensures var leaf, links := Domained(c, mode, read)[id], c.topology[room][id];
            && leaf.room == room && leaf.spines == links.spines && leaf.borders == links.borders && leaf.peers == links.leaves
            && leaf.spineDomain == (if links.spines == {} then NoId else SpinesOf(links.spines))
            && leaf.borderDomain == BorderDomainOf(c, room, links.borders)
            && leaf.uplinkDomain == UplinkDomain(mode, leaf.spineDomain, leaf.borderDomain)
  {
    hide BorderDomainOf;
    assert room in c.topology.Keys && read[id] == ReadLeaf(c, room, id);
  }

  lemma LeafHasRoom(c: Config, read: Leaves, mode: Mode, id: string) returns (room: string)
    requires ScopesLinked(c) && Readable(c) && Holds(c, read, c.topology.Keys) && id in Domained(c, mode, read)
    ensures HasLeaf(c, room, id)
  {
    room :| room in c.topology.Keys && HasLeaf(c, room, id);
  }

  lemma UplinkIsSwitches(mode: Mode, x: Leaf, y: Leaf)
    requires x.uplinkDomain == UplinkDomain(mode, x.spineDomain, x.borderDomain)
    requires y.uplinkDomain == UplinkDomain(mode, y.spineDomain, y.borderDomain)
    ensures SameUplink(mode, x, y) <==> x.spineDomain == y.spineDomain && x.borderDomain == y.borderDomain
  {
    if SameUplink(mode, x, y) { UplinkDecides(mode, x, y); }
  }

  ghost predicate ReadFrom(c: Config, read: Leaves) {
    ScopesLinked(c) && Readable(c) && Holds(c, read, c.topology.Keys)
  }

  // Two leaves fit as peers exactly when the configuration says so.
  lemma PeerFitsExactly(c: Config, read: Leaves, mode: Mode, room: string, a: string, b: string)
    requires ReadFrom(c, read) && HasLeaf(c, room, a)
    ensures var byLeaf := Domained(c, mode, read);
            && a in byLeaf
            && (PeerFits(c, room, a, b) <==>
                  a != b && b in byLeaf && a in Peers(byLeaf[b]) && byLeaf[b].room == byLeaf[a].room && SameUplink(mode, byLeaf[b], byLeaf[a]))
  {
    hide Domained, BorderDomainOf, Unique, Holds, Readable, ScopesLinked, SameUplink;
    var byLeaf := Domained(c, mode, read);
    DomainedIsConfigured(c, read, mode, room, a);
    if HasLeaf(c, room, b) {
      DomainedIsConfigured(c, read, mode, room, b);
      UplinkIsSwitches(mode, byLeaf[b], byLeaf[a]);
    } else if b in byLeaf {
      var r := LeafHasRoom(c, read, mode, b);
      DomainedIsConfigured(c, read, mode, r, b);
    }
  }

  lemma PeersFitExactly(c: Config, read: Leaves, mode: Mode)
    requires ReadFrom(c, read)
    ensures PeersFit(c) <==> ProperPeers(Domained(c, mode, read), mode)
  {
    var byLeaf := Domained(c, mode, read);
    if PeersFit(c) {
      forall a | a in byLeaf ensures PeerProper(byLeaf, mode, a) {
        var room := LeafHasRoom(c, read, mode, a);
        FitsIsProper(c, read, mode, room, a);
      }
      EachProper(byLeaf, mode);
    }
    if ProperPeers(byLeaf, mode) {
      forall room, a | HasLeaf(c, room, a) ensures FitsAt(c, room, a) {
        ProperFits(c, read, mode, room, a);
      }
      EachFits(c);
    }
  }

  // One leaf's share of ProperPeers and of PeersFit.
  ghost predicate PeerProper(byLeaf: map<string, Leaf>, mode: Mode, a: string)
    requires a in byLeaf
  {
    && a !in Peers(byLeaf[a])
    && (forall b, d :: b in Peers(byLeaf[a]) && d in Peers(byLeaf[a]) ==> b == d)
    && (forall b :: b in Peers(byLeaf[a]) ==>
          b in byLeaf && a in Peers(byLeaf[b]) && byLeaf[b].room == byLeaf[a].room && SameUplink(mode, byLeaf[b], byLeaf[a]))
  }

  ghost predicate FitsAt(c: Config, room: string, a: string)
    requires HasLeaf(c, room, a)
  {
    && (forall b :: b in Unique(c.topology[room][a].leaves) ==> PeerFits(c, room, a, b))
    && (forall b, d :: b in Unique(c.topology[room][a].leaves) && d in Unique(c.topology[room][a].leaves) ==> b == d)
  }

  lemma EachProper(byLeaf: map<string, Leaf>, mode: Mode)
    requires forall a :: a in byLeaf ==> PeerProper(byLeaf, mode, a)
    ensures ProperPeers(byLeaf, mode)
  {
    hide Peers, SameUplink;
  }

  lemma EachFits(c: Config)
    requires forall room, a :: HasLeaf(c, room, a) ==> FitsAt(c, room, a)
    ensures PeersFit(c)
  {
    hide Unique, PeerFits;
  }

  lemma FitsIsProper(c: Config, read: Leaves, mode: Mode, room: string, a: string)
    requires ReadFrom(c, read) && PeersFit(c) && HasLeaf(c, room, a)
    ensures a in Domained(c, mode, read) && PeerProper(Domained(c, mode, read), mode, a)
  {
    hide Domained, BorderDomainOf, Unique, Holds, Readable, ScopesLinked, SameUplink, PeerFits;
    DomainedIsConfigured(c, read, mode, room, a);
    forall b ensures PeerFits(c, room, a, b) <==> Fitting(Domained(c, mode, read), mode, a, b) {
      PeerFitsExactly(c, read, mode, room, a, b);
    }
  }

  ghost predicate Fitting(byLeaf: map<string, Leaf>, mode: Mode, a: string, b: string)
    requires a in byLeaf
  {
    a != b && b in byLeaf && a in Peers(byLeaf[b]) && byLeaf[b].room == byLeaf[a].room && SameUplink(mode, byLeaf[b], byLeaf[a])
  }

  lemma ProperFits(c: Config, read: Leaves, mode: Mode, room: string, a: string)
    requires ReadFrom(c, read) && ProperPeers(Domained(c, mode, read), mode) && HasLeaf(c, room, a)
    ensures FitsAt(c, room, a)
  {
    hide Domained, BorderDomainOf, Unique, Holds, Readable, ScopesLinked, SameUplink, PeerFits;
    DomainedIsConfigured(c, read, mode, room, a);
    forall b ensures PeerFits(c, room, a, b) <==> Fitting(Domained(c, mode, read), mode, a, b) {
      PeerFitsExactly(c, read, mode, room, a, b);
    }
  }

  lemma SpinesApartExactly(c: Config, read: Leaves, mode: Mode)
    requires ReadFrom(c, read)
    ensures SpinesApart(c) <==> NoConflict(Domained(c, mode, read), read.Keys, SpineKind)
  {
    hide Domained, BorderDomainOf, Holds, Readable, ScopesLinked, NoConflict, Names;
    var byLeaf := Domained(c, mode, read);
    SameKeys(c, read, mode);
    if SpinesApart(c) {
      forall a, b, n | a in byLeaf && b in byLeaf && n in NamesOf(byLeaf[a], SpineKind) && n in NamesOf(byLeaf[b], SpineKind)
        ensures byLeaf[a].spineDomain == byLeaf[b].spineDomain
      {
        var r := LeafHasRoom(c, read, mode, a);
        var q := LeafHasRoom(c, read, mode, b);
        DomainedIsConfigured(c, read, mode, r, a);
        DomainedIsConfigured(c, read, mode, q, b);
        SpineNamesMeet(byLeaf[a], byLeaf[b], n);
      }
      NoConflictFrom(byLeaf, read.Keys, SpineKind);
    }
    if NoConflict(byLeaf, read.Keys, SpineKind) {
      forall r, a, q, b | HasLeaf(c, r, a) && HasLeaf(c, q, b)
        ensures c.topology[r][a].spines == c.topology[q][b].spines || c.topology[r][a].spines !! c.topology[q][b].spines
      {
        DomainedIsConfigured(c, read, mode, r, a);
        DomainedIsConfigured(c, read, mode, q, b);
        SpinesMeet(byLeaf, read.Keys, a, b);
      }
    }
  }

  lemma SameKeys(c: Config, read: Leaves, mode: Mode)
    ensures Domained(c, mode, read).Keys == read.Keys
  {
  }

  lemma NoConflictFrom(byLeaf: Leaves, ids: set<string>, kind: Kind)
    requires ids == byLeaf.Keys
    requires forall a, b, n :: a in byLeaf && b in byLeaf && n in NamesOf(byLeaf[a], kind) && n in NamesOf(byLeaf[b], kind) ==>
               DomainOf(byLeaf[a], kind) == DomainOf(byLeaf[b], kind)
    ensures NoConflict(byLeaf, ids, kind)
  {
  }

  lemma SpineNamesMeet(x: Leaf, y: Leaf, n: Id)
    requires x.spineDomain == SpineDomain(x) && y.spineDomain == SpineDomain(y)
    requires x.spines == y.spines || x.spines !! y.spines
    requires n in NamesOf(x, SpineKind) && n in NamesOf(y, SpineKind)
    ensures x.spineDomain == y.spineDomain
  {
  }

  lemma SpinesMeet(byLeaf: Leaves, ids: set<string>, a: string, b: string)
    requires ids == byLeaf.Keys && NoConflict(byLeaf, ids, SpineKind) && a in byLeaf && b in byLeaf
    requires byLeaf[a].spineDomain == SpineDomain(byLeaf[a]) && byLeaf[b].spineDomain == SpineDomain(byLeaf[b])
    ensures byLeaf[a].spines == byLeaf[b].spines || byLeaf[a].spines !! byLeaf[b].spines
  {
    if s :| s in byLeaf[a].spines && s in byLeaf[b].spines {
      assert Name(s) in NamesOf(byLeaf[a], SpineKind) && Name(s) in NamesOf(byLeaf[b], SpineKind);
      assert DomainOf(byLeaf[a], SpineKind) == DomainOf(byLeaf[b], SpineKind);
    }
  }

  lemma BordersApartExactly(c: Config, read: Leaves, mode: Mode)
    requires ReadFrom(c, read)
    ensures BordersApart(c) <==> NoConflict(Domained(c, mode, read), read.Keys, BorderKind)
  {
    hide Domained, BorderDomainOf, BorderNamesOf, Holds, Readable, ScopesLinked, NoConflict, Names, NamesOf;
    var byLeaf := Domained(c, mode, read);
    SameKeys(c, read, mode);
    forall r, a | HasLeaf(c, r, a)
      ensures a in byLeaf && byLeaf[a].borderDomain == BorderDomainOf(c, r, c.topology[r][a].borders)
      ensures NamesOf(byLeaf[a], BorderKind) == BorderNamesOf(c, r, c.topology[r][a].borders)
    {
      DomainedIsConfigured(c, read, mode, r, a);
      BorderNamesAre(c, r, byLeaf[a]);
    }
    if BordersApart(c) {
      forall a, b, n | a in byLeaf && b in byLeaf && n in NamesOf(byLeaf[a], BorderKind) && n in NamesOf(byLeaf[b], BorderKind)
        ensures byLeaf[a].borderDomain == byLeaf[b].borderDomain
      {
        var r := LeafHasRoom(c, read, mode, a);
        var q := LeafHasRoom(c, read, mode, b);
        assert HasLeaf(c, r, a) && HasLeaf(c, q, b);
      }
      NoConflictFrom(byLeaf, read.Keys, BorderKind);
    }
    if NoConflict(byLeaf, read.Keys, BorderKind) {
      forall r, a, q, b | HasLeaf(c, r, a) && HasLeaf(c, q, b)
        ensures BorderDomainOf(c, r, c.topology[r][a].borders) == BorderDomainOf(c, q, c.topology[q][b].borders)
                || BorderNamesOf(c, r, c.topology[r][a].borders) !! BorderNamesOf(c, q, c.topology[q][b].borders)
      {
        if byLeaf[a].borderDomain != byLeaf[b].borderDomain { NamesMeet(byLeaf, read.Keys, a, b); }
      }
    }
  }

  lemma BorderNamesAre(c: Config, room: string, leaf: Leaf)
    requires leaf.borderDomain == BorderDomainOf(c, room, leaf.borders)
    ensures NamesOf(leaf, BorderKind) == BorderNamesOf(c, room, leaf.borders)
  {
    hide Names;
    TopologyCache.BorderNames(c, leaf.(room := room), leaf.(room := room));
  }

  lemma NamesMeet(byLeaf: Leaves, ids: set<string>, a: string, b: string)
    requires ids == byLeaf.Keys && NoConflict(byLeaf, ids, BorderKind) && a in byLeaf && b in byLeaf
    requires byLeaf[a].borderDomain != byLeaf[b].borderDomain
    ensures NamesOf(byLeaf[a], BorderKind) !! NamesOf(byLeaf[b], BorderKind)
  {
    hide NamesOf;
  }

  // What a configuration with clean leaf ids has to be like.
  ghost predicate Sound(c: Config) {
    && Nonempty(c) && ScopesLinked(c) && Readable(c) && (exists room, id :: HasLeaf(c, room, id))
    && PeersFit(c) && SpinesApart(c) && BordersApart(c)
  }

  lemma BuildableExactly(c: Config, read: Leaves)
    requires ReadFrom(c, read) && CleanIds(c)
    ensures Buildable(c, read) <==> PeersFit(c) && SpinesApart(c) && BordersApart(c)
  {
    hide Domained, NoConflict, AllConsistent, ProperPeers, PeersFit, SpinesApart, BordersApart, ModeOf;
    var mode := ModeOf(read);
    PeersFitExactly(c, read, mode);
    SpinesApartExactly(c, read, mode);
    BordersApartExactly(c, read, mode);
    SameKeys(c, read, mode);
    forall id | id in Domained(c, mode, read) ensures Clean(id) {
      var room := LeafHasRoom(c, read, mode, id);
    }
    SucceedsExactly(Domained(c, mode, read), mode);
  }

  // Main result: with clean leaf ids the build succeeds exactly for configurations that are not empty, whose scopes are
  // linked and whose leaves each lie in one known room with some uplink, whose peers fit, and whose spine and border
  // domains share no names.
  lemma BuildsExactly(c: Config)
    requires CleanIds(c)
    ensures (exists read :: Builds(c, read)) <==> Sound(c)
  {
    hide Buildable, Nonempty, PeersFit, SpinesApart, BordersApart, CleanIds;
    if read :| Builds(c, read) {
      ReadAllHolds(c);
      HoldsOnce(c, read, ReadAll(c));
      BuildableExactly(c, read);
    }
    if Sound(c) {
      ReadAllHolds(c);
      BuildableExactly(c, ReadAll(c));
      assert Builds(c, ReadAll(c));
    }
  }
}
