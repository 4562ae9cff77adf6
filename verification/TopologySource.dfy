/** The topology compiler: buildCache in algorithm_server/go/topology/source.go. */
module TopologySource {
  import opened Wrappers
  import opened Text
  import opened LeafDomains

  datatype Adjacency = Adjacency(spines: set<string>, borders: set<string>, leaves: set<string>)
  datatype BorderConfig = BorderConfig(room: string, members: set<string>)

  // Scopes are indexed by id: a location belongs to a region, a data center to a location, a room to a data center.
  datatype Config = Config(
    regions: set<string>, locations: map<string, string>, dataCenters: map<string, string>, rooms: map<string, string>,
    borderDomains: map<string, BorderConfig>, topology: map<string, map<string, Adjacency>>)

  type Leaves = map<string, Leaf>
  type Aliases = map<Id, Id>

  datatype Cache = Cache(mode: Mode, byLeaf: Leaves, dataCenters: set<string>, rooms: set<string>,
                         leafAliases: Aliases, spineAliases: Aliases, borderAliases: Aliases)

  // Scope ids are not empty (indexScopes), and every scope lies in a known wider one.
  predicate ScopesLinked(c: Config) {
    && "" !in c.regions && "" !in c.locations && "" !in c.dataCenters && "" !in c.rooms
    && (forall l :: l in c.locations ==> c.locations[l] in c.regions)
    && (forall d :: d in c.dataCenters ==> c.dataCenters[d] in c.locations)
    && (forall r :: r in c.rooms ==> c.rooms[r] in c.dataCenters)
  }

  // ---- Reading the adjacency of every leaf ----

  predicate HasLeaf(c: Config, room: string, leaf: string) {
    room in c.topology && leaf in c.topology[room]
  }

  function ReadLeaf(c: Config, room: string, leaf: string): Leaf
    requires ScopesLinked(c) && room in c.rooms && HasLeaf(c, room, leaf)
  {
    var dc := c.rooms[room];
    var location := c.dataCenters[dc];
    var links := c.topology[room][leaf];
    Leaf(c.locations[location], location, dc, room, leaf, links.spines, links.borders, links.leaves, NoId, NoId, NoId, NoId, {})
  }

  ghost predicate Readable(c: Config) {
    && (forall room :: room in c.topology ==> room in c.rooms)
    && (forall r1, r2, leaf :: HasLeaf(c, r1, leaf) && HasLeaf(c, r2, leaf) ==> r1 == r2)
    && (forall room, leaf :: HasLeaf(c, room, leaf) ==>
          Uplinked(c.topology[room][leaf]))
  }

  // byLeaf holds exactly the leaves of the rooms given, as read.
  ghost predicate Holds(c: Config, byLeaf: Leaves, rooms: set<string>)
    requires ScopesLinked(c) && rooms <= c.rooms.Keys
  {
    && (forall leaf :: leaf in byLeaf ==> exists room :: room in rooms && HasLeaf(c, room, leaf))
    && (forall room, leaf :: room in rooms && HasLeaf(c, room, leaf) ==> leaf in byLeaf && byLeaf[leaf] == ReadLeaf(c, room, leaf))
  }

  // A leaf with only spine or only border uplinks is counted, and makes the mode uplink-compatible.
  predicate SingleKind(leaf: Leaf) {
    leaf.spines == {} || leaf.borders == {}
  }

  ghost predicate AnySingleKind(byLeaf: Leaves) {
    exists id :: id in byLeaf && SingleKind(byLeaf[id])
  }

  lemma SingleKindAdded(byLeaf: Leaves, id: string, leaf: Leaf)
    requires id !in byLeaf
    ensures AnySingleKind(byLeaf[id := leaf]) <==> AnySingleKind(byLeaf) || SingleKind(leaf)
  {
    if AnySingleKind(byLeaf) {
      var other :| other in byLeaf && SingleKind(byLeaf[other]);
      assert byLeaf[id := leaf][other] == byLeaf[other];
    }
    assert byLeaf[id := leaf][id] == leaf;
  }

  lemma SingleKindRead(c: Config, room: string, leaf: string)
    requires ScopesLinked(c) && room in c.rooms && HasLeaf(c, room, leaf)
    ensures SingleKind(ReadLeaf(c, room, leaf)) <==> c.topology[room][leaf].spines == {} || c.topology[room][leaf].borders == {}
  {
  }

  predicate Uplinked(links: Adjacency) {
    links.spines != {} || links.borders != {}
  }

  function ReadFrom(c: Config, room: string, ids: set<string>): Leaves
    requires ScopesLinked(c) && room in c.rooms && room in c.topology && ids <= c.topology[room].Keys
  {
    map id | id in ids :: ReadLeaf(c, room, id)
  }

  lemma ReadOneMore(c: Config, room: string, before: Leaves, ids: set<string>, id: string)
    requires ScopesLinked(c) && room in c.rooms && room in c.topology && ids + {id} <= c.topology[room].Keys
    ensures (before + ReadFrom(c, room, ids))[id := ReadLeaf(c, room, id)] == before + ReadFrom(c, room, ids + {id})
  {
  }

  method ReadRoom(c: Config, room: string, before: Leaves, countedBefore: bool) returns (ok: bool, byLeaf: Leaves, singleKind: bool)
    requires ScopesLinked(c) && room in c.rooms && room in c.topology && (countedBefore <==> AnySingleKind(before))
    ensures ok <==> (c.topology[room].Keys !! before.Keys
                     && forall leaf :: leaf in c.topology[room] ==> Uplinked(c.topology[room][leaf]))
    ensures ok ==> byLeaf == before + ReadFrom(c, room, c.topology[room].Keys)
    ensures ok ==> (singleKind <==> AnySingleKind(byLeaf))
  {
    hide ReadLeaf, AnySingleKind, ScopesLinked, SingleKind;
    byLeaf, singleKind := before, countedBefore;
    var todo := c.topology[room].Keys;
    while todo != {}
      invariant todo <= c.topology[room].Keys
      invariant byLeaf == before + ReadFrom(c, room, c.topology[room].Keys - todo)
      invariant forall leaf :: leaf in c.topology[room].Keys - todo ==>
                  leaf !in before && (Uplinked(c.topology[room][leaf]))
      invariant singleKind <==> AnySingleKind(byLeaf)
      decreases todo
    {
      var leafId :| leafId in todo;
      if leafId in byLeaf {
        return false, byLeaf, singleKind;
      }
      var links := c.topology[room][leafId];
      if links.spines == {} && links.borders == {} {
        return false, byLeaf, singleKind;
      }
      if links.spines == {} || links.borders == {} {   // spineOnly or borderOnly is counted
        singleKind := true;
      }
      SingleKindRead(c, room, leafId);
      SingleKindAdded(byLeaf, leafId, ReadLeaf(c, room, leafId));
      ReadOneMore(c, room, before, c.topology[room].Keys - todo, leafId);
      byLeaf := byLeaf[leafId := ReadLeaf(c, room, leafId)];
      assert c.topology[room].Keys - (todo - {leafId}) == c.topology[room].Keys - todo + {leafId};
      todo := todo - {leafId};
    }
    ok := true;
  }

  method ReadLeaves(c: Config) returns (ok: bool, byLeaf: Leaves, singleKind: bool)
    requires ScopesLinked(c)
    ensures ok <==> Readable(c)
    ensures ok ==> Holds(c, byLeaf, c.topology.Keys)
    ensures ok ==> (singleKind <==> AnySingleKind(byLeaf))
  {
    byLeaf, singleKind := map[], false;
    var todo := c.topology.Keys;
    ghost var done: set<string> := {};
    while todo != {}
      invariant todo !! done && todo + done == c.topology.Keys && done <= c.rooms.Keys
      invariant Holds(c, byLeaf, done)
      invariant forall r1, r2, leaf :: r1 in done && r2 in done && HasLeaf(c, r1, leaf) && HasLeaf(c, r2, leaf) ==> r1 == r2
      invariant forall room, leaf :: room in done && HasLeaf(c, room, leaf) ==>
                  Uplinked(c.topology[room][leaf])
      invariant singleKind <==> AnySingleKind(byLeaf)
      decreases todo
    {
      var room :| room in todo;
      if room !in c.rooms {
        return false, byLeaf, singleKind;
      }
      ghost var before := byLeaf;
      ok, byLeaf, singleKind := ReadRoom(c, room, byLeaf, singleKind);
      if !ok {
        NotReadable(c, room, before, done);
        return;
      }
      RoomAdded(c, room, before, byLeaf, done);
      todo, done := todo - {room}, done + {room};
    }
    ok := true;
  }

  lemma NotReadable(c: Config, room: string, before: Leaves, done: set<string>)
    requires ScopesLinked(c) && done <= c.rooms.Keys && room in c.rooms && room in c.topology && room !in done
    requires Holds(c, before, done)
    requires !(c.topology[room].Keys !! before.Keys
               && forall leaf :: leaf in c.topology[room] ==> Uplinked(c.topology[room][leaf]))
    ensures !Readable(c)
  {
    if leaf :| leaf in c.topology[room] && leaf in before {
      var r2 :| r2 in done && HasLeaf(c, r2, leaf);
      assert HasLeaf(c, room, leaf) && room != r2;
    } else {
      var leaf :| leaf in c.topology[room] && !Uplinked(c.topology[room][leaf]);
      assert HasLeaf(c, room, leaf);
    }
  }

  lemma RoomAdded(c: Config, room: string, before: Leaves, byLeaf: Leaves, done: set<string>)
    requires ScopesLinked(c) && done <= c.rooms.Keys && room in c.rooms && room in c.topology && room !in done
    requires Holds(c, before, done) && c.topology[room].Keys !! before.Keys
    requires byLeaf == before + ReadFrom(c, room, c.topology[room].Keys)
    ensures Holds(c, byLeaf, done + {room})
    ensures forall r, leaf :: r in done && HasLeaf(c, r, leaf) ==> !HasLeaf(c, room, leaf)
  {
    forall leaf | leaf in byLeaf
      ensures exists r :: r in done + {room} && HasLeaf(c, r, leaf)
    {
      if leaf in before {
        var r :| r in done && HasLeaf(c, r, leaf);
        assert r in done + {room};
      } else {
        assert room in done + {room} && HasLeaf(c, room, leaf);
      }
    }
    forall r, leaf | r in done && HasLeaf(c, r, leaf)
      ensures !HasLeaf(c, room, leaf) && leaf in byLeaf && byLeaf[leaf] == ReadLeaf(c, r, leaf)
    {
      assert leaf in before;
    }
  }
}
