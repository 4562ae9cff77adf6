/** Domain ids, alias tables and the whole of buildCache in algorithm_server/go/topology/source.go. */
module TopologyCache {
  import opened Wrappers
  import opened Text
  import opened LeafDomains
  import opened TopologySource

  function IdText(s: string): Id {
    if s == "" then NoId else Name(s)
  }

  // ---- Spine, border and uplink domains of one leaf ----

  // The configured border domains of a room whose members are these switches.
  function Matching(domains: map<string, BorderConfig>, room: string, members: set<string>): set<string> {
    set id | id in domains && domains[id].room == room && Unique(domains[id].members) == Unique(members)
  }

  ghost function Configured(domains: map<string, BorderConfig>, room: string, members: set<string>): Id {
    if exists id :: Matching(domains, room, members) == {id}
    then var id :| Matching(domains, room, members) == {id}; IdText(id)
    else NoId
  }

  method ConfiguredBorderDomain(domains: map<string, BorderConfig>, room: string, members: set<string>) returns (domain: Id)
    ensures domain == Configured(domains, room, members)
  {
    var ids: seq<string> := [];
    var todo := domains.Keys;
    while todo != {}
      invariant todo <= domains.Keys
      invariant forall id :: id in ids <==> id in Matching(domains, room, members) && id !in todo
      invariant forall i, j :: 0 <= i < j < |ids| ==> ids[i] != ids[j]
      decreases todo
    {
      var id :| id in todo;
      if domains[id].room == room && Unique(domains[id].members) == Unique(members) {
        ids := ids + [id];
      }
      todo := todo - {id};
    }
    OneMatch(ids, Matching(domains, room, members));
    domain := if |ids| == 1 then IdText(ids[0]) else NoId;
  }

  lemma OneMatch(ids: seq<string>, matching: set<string>)
    requires forall id :: id in ids <==> id in matching
    requires forall i, j :: 0 <= i < j < |ids| ==> ids[i] != ids[j]
    ensures |ids| == 1 <==> exists id :: matching == {id}
    ensures |ids| == 1 ==> matching == {ids[0]}
  {
    if |ids| == 1 {
      assert ids[0] in ids;
      assert matching == {ids[0]};
    } else if |ids| > 1 {
      assert ids[0] in ids && ids[1] in ids;
      assert ids[0] in matching && ids[1] in matching && ids[0] != ids[1];
    } else {
      assert forall id :: id !in ids;
    }
  }

  ghost function BorderDomainOf(c: Config, room: string, borders: set<string>): Id {
    if borders == {} then NoId
    else if Configured(c.borderDomains, room, borders) == NoId then BordersOf(borders)
    else Configured(c.borderDomains, room, borders)
  }

  ghost function BorderDomain(c: Config, leaf: Leaf): Id {
    BorderDomainOf(c, leaf.room, leaf.borders)
  }

  function SpineDomain(leaf: Leaf): Id {
    if leaf.spines == {} then NoId else SpinesOf(leaf.spines)
  }

  function UplinkDomain(mode: Mode, spine: Id, border: Id): Id {
    if mode == Layered then NoId
    else if spine != NoId && border != NoId then BothOf(spine, border)
    else if spine != NoId then SpineUplink(spine)
    else BorderUplink(border)
  }

  ghost function WithDomains(c: Config, mode: Mode, leaf: Leaf): Leaf {
    var spine, border := SpineDomain(leaf), BorderDomain(c, leaf);
    leaf.(spineDomain := spine, borderDomain := border, uplinkDomain := UplinkDomain(mode, spine, border))
  }

  ghost function Domained(c: Config, mode: Mode, byLeaf: Leaves): Leaves {
    map id | id in byLeaf :: WithDomains(c, mode, byLeaf[id])
  }

  method AddDomains(c: Config, mode: Mode, input: Leaves) returns (byLeaf: Leaves)
    ensures byLeaf == Domained(c, mode, input)
  {
    hide Configured;
    byLeaf := input;
    var todo := input.Keys;
    while todo != {}
      invariant todo <= input.Keys && byLeaf.Keys == input.Keys
      invariant forall id :: id in input ==> byLeaf[id] == if id in todo then input[id] else WithDomains(c, mode, input[id])
      decreases todo
    {
      var id :| id in todo;
      var leaf := byLeaf[id];
      if leaf.spines != {} {
        leaf := leaf.(spineDomain := SpinesOf(leaf.spines));
      } else {
        leaf := leaf.(spineDomain := NoId);
      }
      if leaf.borders != {} {
        var configured := ConfiguredBorderDomain(c.borderDomains, leaf.room, leaf.borders);
        if configured == NoId {
          configured := BordersOf(leaf.borders);
        }
        leaf := leaf.(borderDomain := configured);
      } else {
        leaf := leaf.(borderDomain := NoId);
      }
      leaf := leaf.(uplinkDomain := UplinkDomain(mode, leaf.spineDomain, leaf.borderDomain));
      byLeaf := byLeaf[id := leaf];
      todo := todo - {id};
    }
  }

  // ---- Alias tables ----

  datatype Kind = LeafKind | SpineKind | BorderKind

  function DomainOf(leaf: Leaf, kind: Kind): Id {
    match kind
    case LeafKind => leaf.leafDomain
    case SpineKind => leaf.spineDomain
    case BorderKind => leaf.borderDomain
  }

  function Names(switches: set<string>): set<Id> {
    set s | s in switches :: Name(s)
  }

  // What a leaf enters in the table of a kind: its domain id and the switches of that domain.
  function NamesOf(leaf: Leaf, kind: Kind): set<Id> {
    match kind
    case LeafKind => {leaf.leafDomain} + Names(leaf.leafDomainLeaves)
    case SpineKind => if leaf.spineDomain == NoId then {} else {leaf.spineDomain} + Names(leaf.spines)
    case BorderKind => if leaf.borderDomain == NoId then {} else {leaf.borderDomain} + Names(leaf.borders)
  }

  ghost predicate NoConflict(byLeaf: Leaves, ids: set<string>, kind: Kind)
    requires ids <= byLeaf.Keys
  {
    forall a, b, n :: a in ids && b in ids && n in NamesOf(byLeaf[a], kind) && n in NamesOf(byLeaf[b], kind) ==>
      DomainOf(byLeaf[a], kind) == DomainOf(byLeaf[b], kind)
  }

  // The table holds exactly the entries of these leaves.
  ghost predicate Table(byLeaf: Leaves, ids: set<string>, kind: Kind, aliases: Aliases)
    requires ids <= byLeaf.Keys
  {
    && (forall id, n :: id in ids && n in NamesOf(byLeaf[id], kind) ==> n in aliases && aliases[n] == DomainOf(byLeaf[id], kind))
    && (forall n :: n in aliases ==> exists id :: id in ids && n in NamesOf(byLeaf[id], kind))
  }

  lemma TableMeansNoConflict(byLeaf: Leaves, ids: set<string>, kind: Kind, aliases: Aliases)
    requires ids <= byLeaf.Keys && Table(byLeaf, ids, kind, aliases)
    ensures NoConflict(byLeaf, ids, kind)
  {
    forall a, b, n | a in ids && b in ids && n in NamesOf(byLeaf[a], kind) && n in NamesOf(byLeaf[b], kind)
      ensures DomainOf(byLeaf[a], kind) == DomainOf(byLeaf[b], kind)
    {
      assert aliases[n] == DomainOf(byLeaf[a], kind);
      assert aliases[n] == DomainOf(byLeaf[b], kind);
    }
  }

  // addAlias, for each of a domain's names in any order.
  method AddAliases(aliases: Aliases, names: set<Id>, domain: Id) returns (ok: bool, result: Aliases)
    ensures ok <==> forall n :: n in names && n in aliases ==> aliases[n] == domain
    ensures ok ==> result == aliases + map n | n in names :: domain
  {
    result := aliases;
    var todo := names;
    while todo != {}
      invariant todo <= names
      invariant result == aliases + map n | n in names - todo :: domain
      invariant forall n :: n in names - todo && n in aliases ==> aliases[n] == domain
      decreases todo
    {
      var alias :| alias in todo;
      if alias in result && result[alias] != domain {
        return false, result;
      }
      result := result[alias := domain];
      todo := todo - {alias};
    }
    ok := true;
  }

  // The entries of one more leaf, or the conflict they meet.
  method AddLeafAliases(byLeaf: Leaves, ghost done: set<string>, id: string, kind: Kind, aliases: Aliases) returns (ok: bool, result: Aliases)
    requires done + {id} <= byLeaf.Keys && Table(byLeaf, done, kind, aliases)
    ensures ok ==> Table(byLeaf, done + {id}, kind, result)
    ensures ok <==> NoConflict(byLeaf, done + {id}, kind)
  {
    var names, domain := NamesOf(byLeaf[id], kind), DomainOf(byLeaf[id], kind);
    ok, result := AddAliases(aliases, names, domain);
    if !ok {
      ghost var n :| n in names && n in aliases && aliases[n] != domain;
      ghost var other :| other in done && n in NamesOf(byLeaf[other], kind);
      assert other in done + {id} && id in done + {id};
    } else {
      TableGrows(byLeaf, done, id, kind, aliases, result);
      TableMeansNoConflict(byLeaf, done + {id}, kind, result);
    }
  }

  lemma TableGrows(byLeaf: Leaves, done: set<string>, id: string, kind: Kind, aliases: Aliases, result: Aliases)
    requires done + {id} <= byLeaf.Keys && Table(byLeaf, done, kind, aliases)
    requires forall n :: n in NamesOf(byLeaf[id], kind) && n in aliases ==> aliases[n] == DomainOf(byLeaf[id], kind)
    requires result == aliases + map n | n in NamesOf(byLeaf[id], kind) :: DomainOf(byLeaf[id], kind)
    ensures Table(byLeaf, done + {id}, kind, result)
  {
    hide NamesOf, DomainOf;
    forall n | n in result
      ensures exists i :: i in done + {id} && n in NamesOf(byLeaf[i], kind)
    {
      NamedBySome(byLeaf, done, id, kind, aliases, n);
    }
    forall i, n | i in done + {id} && n in NamesOf(byLeaf[i], kind)
      ensures n in result && result[n] == DomainOf(byLeaf[i], kind)
    {
      if i in done {
        EntryStays(NamesOf(byLeaf[id], kind), DomainOf(byLeaf[id], kind), aliases, n);
      }
    }
  }

  lemma NamedBySome(byLeaf: Leaves, done: set<string>, id: string, kind: Kind, aliases: Aliases, n: Id)
    requires done + {id} <= byLeaf.Keys && Table(byLeaf, done, kind, aliases)
    requires n in aliases || n in NamesOf(byLeaf[id], kind)
    ensures exists i :: i in done + {id} && n in NamesOf(byLeaf[i], kind)
  {
    hide NamesOf, DomainOf;
    if n in NamesOf(byLeaf[id], kind) {
      assert id in done + {id};
    } else {
      var i :| i in done && n in NamesOf(byLeaf[i], kind);
      assert i in done + {id};
    }
  }

  lemma EntryStays(names: set<Id>, domain: Id, aliases: Aliases, n: Id)
    requires n in aliases && forall m :: m in names && m in aliases ==> aliases[m] == domain
    ensures var result := aliases + map m | m in names :: domain; n in result && result[n] == aliases[n]
  {
  }

  lemma ConflictStays(byLeaf: Leaves, ids: set<string>, kind: Kind)
    requires ids <= byLeaf.Keys && !NoConflict(byLeaf, ids, kind)
    ensures !NoConflict(byLeaf, byLeaf.Keys, kind)
  {
  }

  method FillAliases(byLeaf: Leaves) returns (ok: bool, leafAliases: Aliases, spineAliases: Aliases, borderAliases: Aliases)
    ensures ok <==> forall kind :: NoConflict(byLeaf, byLeaf.Keys, kind)
    ensures ok ==> Table(byLeaf, byLeaf.Keys, LeafKind, leafAliases)
    ensures ok ==> Table(byLeaf, byLeaf.Keys, SpineKind, spineAliases)
    ensures ok ==> Table(byLeaf, byLeaf.Keys, BorderKind, borderAliases)
  {
    leafAliases, spineAliases, borderAliases := map[], map[], map[];
    var todo := byLeaf.Keys;
    ghost var done: set<string> := {};
    while todo != {}
      invariant done + todo == byLeaf.Keys
      invariant Table(byLeaf, done, LeafKind, leafAliases)
      invariant Table(byLeaf, done, SpineKind, spineAliases)
      invariant Table(byLeaf, done, BorderKind, borderAliases)
      decreases todo
    {
      var id :| id in todo;
      ok, leafAliases := AddLeafAliases(byLeaf, done, id, LeafKind, leafAliases);
      if !ok {
        ConflictStays(byLeaf, done + {id}, LeafKind);
        return;
      }
      ok, spineAliases := AddLeafAliases(byLeaf, done, id, SpineKind, spineAliases);
      if !ok {
        ConflictStays(byLeaf, done + {id}, SpineKind);
        return;
      }
      ok, borderAliases := AddLeafAliases(byLeaf, done, id, BorderKind, borderAliases);
      if !ok {
        ConflictStays(byLeaf, done + {id}, BorderKind);
        return;
      }
      todo, done := todo - {id}, done + {id};
    }
    assert done == byLeaf.Keys;
    TableMeansNoConflict(byLeaf, done, LeafKind, leafAliases);
    TableMeansNoConflict(byLeaf, done, SpineKind, spineAliases);
    TableMeansNoConflict(byLeaf, done, BorderKind, borderAliases);
    forall kind ensures NoConflict(byLeaf, byLeaf.Keys, kind) {
      match kind
      case LeafKind =>
      case SpineKind =>
      case BorderKind =>
    }
    ok := true;
  }

  // ---- The whole build ----

  ghost function ModeOf(read: Leaves): Mode {
    if AnySingleKind(read) then UplinkCompatible else Layered
  }

  ghost predicate Buildable(c: Config, read: Leaves) {
    var mode := ModeOf(read);
    var domained := Domained(c, mode, read);
    && AllConsistent(domained, mode)
    && NoConflict(domained, read.Keys, SpineKind) && NoConflict(domained, read.Keys, BorderKind)
  }

  ghost predicate Filled(c: Config, read: Leaves, cache: Cache) {
    && cache.mode == ModeOf(read)
    && AllConsistent(Domained(c, cache.mode, read), cache.mode)
    && Blocked(Domained(c, cache.mode, read), cache.byLeaf)
    && cache.dataCenters == c.dataCenters.Keys && cache.rooms == c.rooms.Keys
    && Table(cache.byLeaf, cache.byLeaf.Keys, LeafKind, cache.leafAliases)
    && Table(cache.byLeaf, cache.byLeaf.Keys, SpineKind, cache.spineAliases)
    && Table(cache.byLeaf, cache.byLeaf.Keys, BorderKind, cache.borderAliases)
  }

  // What a built cache holds.
  ghost predicate Compiled(c: Config, read: Leaves, cache: Cache) {
    && ScopesLinked(c) && Readable(c) && Holds(c, read, c.topology.Keys)
    && Filled(c, read, cache)
  }

  ghost predicate Unassigned(byLeaf: Leaves) {
    forall id :: id in byLeaf ==> byLeaf[id].leafDomain == NoId && byLeaf[id].leafDomainLeaves == {}
  }

  lemma ReadUnassigned(c: Config, read: Leaves)
    requires ScopesLinked(c) && Readable(c) && Holds(c, read, c.topology.Keys)
    ensures Unassigned(read)
  {
    forall id | id in read ensures read[id].leafDomain == NoId && read[id].leafDomainLeaves == {} {
      var room :| room in c.topology.Keys && HasLeaf(c, room, id);
      assert read[id] == ReadLeaf(c, room, id);
    }
  }

  // ---- Leaf aliases ----

  // What a leaf enters in the leaf table: its domain id, and the names of its block, which are clean.
  lemma LeafName(input: Leaves, byLeaf: Leaves, id: string, n: Id)
    requires Unassigned(input) && Blocked(input, byLeaf) && id in input && n in NamesOf(byLeaf[id], LeafKind)
    ensures n == byLeaf[id].leafDomain || (n.Name? && Clean(n.name) && Clean(id) && n.name in byLeaf[id].leafDomainLeaves)
  {
    UniqueIsClean({id} + input[id].peers);
  }

  // A clean name that a leaf answers to is in its block.
  lemma CleanNameInBlock(input: Leaves, byLeaf: Leaves, id: string, n: Id)
    requires Blocked(input, byLeaf) && id in input && Clean(id) && n in NamesOf(byLeaf[id], LeafKind) && n.Name? && Clean(n.name)
    ensures n.name in byLeaf[id].leafDomainLeaves
  {
    hide Members, Clean;
    if n == byLeaf[id].leafDomain {
      assert InBlock(input, id, byLeaf[id]);
      var x :| NamedBy(input, id, byLeaf[id], x);
      MembersOfClean(x, input[x]);
    }
  }

  lemma OneLeafDomain(input: Leaves, mode: Mode, byLeaf: Leaves, a: string, b: string, n: Id)
    requires Unassigned(input) && AllConsistent(input, mode) && Blocked(input, byLeaf) && a in input && b in input
    requires n in NamesOf(byLeaf[a], LeafKind) && n in NamesOf(byLeaf[b], LeafKind)
    requires n != byLeaf[a].leafDomain
    ensures byLeaf[a].leafDomain == byLeaf[b].leafDomain
  {
    hide Members, Clean, NamesOf, AllConsistent, Blocked;
    LeafName(input, byLeaf, a, n);
    LeafName(input, byLeaf, b, n);
    CleanBlock(input, byLeaf, b, n);
    CleanNameInBlock(input, byLeaf, b, n);
    DomainsPartitionLeaves(input, mode, byLeaf, a, b);
  }

  // Only leaves with clean ids answer to a name.
  lemma CleanBlock(input: Leaves, byLeaf: Leaves, id: string, n: Id)
    requires Unassigned(input) && Blocked(input, byLeaf) && id in input && n in NamesOf(byLeaf[id], LeafKind) && n != NoId
    ensures Clean(id)
  {
  }

  // Leaf aliases cannot conflict: of the three tables only those for spines and borders can refuse a topology.
  lemma LeafAliasesNeverConflict(input: Leaves, mode: Mode, byLeaf: Leaves)
    requires Unassigned(input) && AllConsistent(input, mode) && Blocked(input, byLeaf)
    ensures NoConflict(byLeaf, byLeaf.Keys, LeafKind)
  {
    hide NamesOf, Unassigned, AllConsistent;
    forall a, b, n | a in byLeaf && b in byLeaf && n in NamesOf(byLeaf[a], LeafKind) && n in NamesOf(byLeaf[b], LeafKind)
      ensures byLeaf[a].leafDomain == byLeaf[b].leafDomain
    {
      if n != byLeaf[a].leafDomain {
        OneLeafDomain(input, mode, byLeaf, a, b, n);
      } else if n != byLeaf[b].leafDomain {
        OneLeafDomain(input, mode, byLeaf, b, a, n);
      }
    }
  }

  // Spine and border entries do not depend on the leaf domains.
  lemma SameConflicts(a: Leaves, b: Leaves, kind: Kind)
    requires SameFacts(a, b) && kind != LeafKind
    ensures NoConflict(a, a.Keys, kind) <==> NoConflict(b, b.Keys, kind)
  {
    forall id | id in a ensures NamesOf(a[id], kind) == NamesOf(b[id], kind) && DomainOf(a[id], kind) == DomainOf(b[id], kind) {
    }
  }

  lemma OnlySwitchesConflict(input: Leaves, mode: Mode, byLeaf: Leaves)
    requires Unassigned(input) && AllConsistent(input, mode) && Blocked(input, byLeaf)
    ensures (forall kind :: NoConflict(byLeaf, byLeaf.Keys, kind))
            <==> NoConflict(input, input.Keys, SpineKind) && NoConflict(input, input.Keys, BorderKind)
  {
    hide NoConflict, Unassigned, AllConsistent;
    LeafAliasesNeverConflict(input, mode, byLeaf);
    SameConflicts(byLeaf, input, SpineKind);
    SameConflicts(byLeaf, input, BorderKind);
    if NoConflict(byLeaf, byLeaf.Keys, SpineKind) && NoConflict(byLeaf, byLeaf.Keys, BorderKind) {
      forall kind ensures NoConflict(byLeaf, byLeaf.Keys, kind) {
        match kind
        case LeafKind =>
        case SpineKind =>
        case BorderKind =>
      }
    }
  }

  // From the leaves as read to the finished cache.
  method Compile(c: Config, read: Leaves, mode: Mode) returns (result: Option<Cache>)
    requires mode == ModeOf(read) && Unassigned(read)
    ensures result.Some? <==> Buildable(c, read)
    ensures result.Some? ==> Filled(c, read, result.value)
  {
    hide AllConsistent, NoConflict, WithDomains, Table, ModeOf;
    var domained := AddDomains(c, mode, read);
    var ok, byLeaf := AssignLeafDomains(domained, mode);
    if !ok {
      return None;
    }
    DomainedUnassigned(c, mode, read);
    OnlySwitchesConflict(domained, mode, byLeaf);
    var leafAliases, spineAliases, borderAliases;
    ok, leafAliases, spineAliases, borderAliases := FillAliases(byLeaf);
    if !ok {
      return None;
    }
    result := Some(Cache(mode, byLeaf, c.dataCenters.Keys, c.rooms.Keys, leafAliases, spineAliases, borderAliases));
  }

  lemma DomainedUnassigned(c: Config, mode: Mode, read: Leaves)
    requires Unassigned(read)
    ensures Unassigned(Domained(c, mode, read)) && Domained(c, mode, read).Keys == read.Keys
  {
  }

  // Everything the build demands, of the leaves as read.
  ghost predicate Builds(c: Config, read: Leaves) {
    Nonempty(c) && ScopesLinked(c) && Readable(c) && Holds(c, read, c.topology.Keys) && read != map[] && Buildable(c, read)
  }

  lemma HoldsOnce(c: Config, a: Leaves, b: Leaves)
    requires ScopesLinked(c) && Readable(c) && Holds(c, a, c.topology.Keys) && Holds(c, b, c.topology.Keys)
    ensures a == b
  {
  }

  method BuildCache(c: Config) returns (result: Option<Cache>)
    ensures result.Some? <==> exists read :: Builds(c, read)
    ensures result.Some? ==> exists read :: Builds(c, read) && Compiled(c, read, result.value)
  {
    hide Buildable, Filled, Unassigned;
    if !ScopesLinked(c) {
      return None;
    }
    var ok, byLeaf, singleKind := ReadLeaves(c);
    if !ok {
      return None;
    }
    forall read | Builds(c, read) ensures read == byLeaf {
      HoldsOnce(c, read, byLeaf);
    }
    if !Nonempty(c) || byLeaf == map[] {
      return None;
    }
    ReadUnassigned(c, byLeaf);
    result := Compile(c, byLeaf, if singleKind then UplinkCompatible else Layered);
    assert Builds(c, byLeaf) <==> result.Some?;
    assert result.Some? ==> Compiled(c, byLeaf, result.value);
  }

  predicate Nonempty(c: Config) {
    c.regions != {} && c.locations != map[] && c.dataCenters != map[] && c.rooms != map[]
  }

  // ---- What builds has a cache ----

  ghost function AllNames(byLeaf: Leaves, kind: Kind): set<Id> {
    set id, n | id in byLeaf && n in NamesOf(byLeaf[id], kind) :: n
  }

  ghost function TableOf(byLeaf: Leaves, kind: Kind): Aliases {
    map n | n in AllNames(byLeaf, kind) :: DomainOf(byLeaf[Owner(byLeaf, kind, n)], kind)
  }

  ghost function Owner(byLeaf: Leaves, kind: Kind, n: Id): (id: string)
    requires n in AllNames(byLeaf, kind)
    ensures id in byLeaf && n in NamesOf(byLeaf[id], kind)
  {
    var id :| id in byLeaf && n in NamesOf(byLeaf[id], kind); id
  }

  lemma TableExists(byLeaf: Leaves, kind: Kind)
    requires NoConflict(byLeaf, byLeaf.Keys, kind)
    ensures Table(byLeaf, byLeaf.Keys, kind, TableOf(byLeaf, kind))
  {
  }

  // The hypotheses of the results below can be met: whatever builds has a compiled cache.
  lemma BuildsHasCache(c: Config, read: Leaves)
    requires Builds(c, read)
    ensures exists cache :: Compiled(c, read, cache)
  {
    hide Buildable, Readable, Holds, ScopesLinked, Table, TableOf, AllConsistent, Blocked, Settled, ModeOf;
    var mode := ModeOf(read);
    var byLeaf := Settled(Domained(c, mode, read));
    ReadUnassigned(c, read);
    SettledIsBlocked(Domained(c, mode, read));
    SettledConflicts(c, read, byLeaf);
    TableExists(byLeaf, LeafKind);
    TableExists(byLeaf, SpineKind);
    TableExists(byLeaf, BorderKind);
    var cache := Cache(mode, byLeaf, c.dataCenters.Keys, c.rooms.Keys,
                       TableOf(byLeaf, LeafKind), TableOf(byLeaf, SpineKind), TableOf(byLeaf, BorderKind));
    ConsistentWhenBuildable(c, read);
    assert Compiled(c, read, cache);
  }

  lemma ConsistentWhenBuildable(c: Config, read: Leaves)
    requires Buildable(c, read)
    ensures AllConsistent(Domained(c, ModeOf(read), read), ModeOf(read))
  {
    hide AllConsistent, ModeOf;
  }

  lemma SettledConflicts(c: Config, read: Leaves, byLeaf: Leaves)
    requires Unassigned(read) && Buildable(c, read) && Blocked(Domained(c, ModeOf(read), read), byLeaf)
    ensures forall kind :: NoConflict(byLeaf, byLeaf.Keys, kind)
  {
    hide NoConflict, AllConsistent, ModeOf, Unassigned, WithDomains;
    DomainedUnassigned(c, ModeOf(read), read);
    OnlySwitchesConflict(Domained(c, ModeOf(read), read), ModeOf(read), byLeaf);
  }

  // ---- What every compiled cache satisfies, leaf by leaf ----

  // Trimming tells the names apart, and a blank name stands alone.
  ghost predicate ToldApartTrimmed(names: set<string>) {
    forall s, t :: s in names && t in names && s != t ==> Trim(s) != Trim(t) && Trim(s) != ""
  }

  ghost predicate BordersIn(byLeaf: Leaves, names: set<string>) {
    forall id :: id in byLeaf ==> byLeaf[id].borders <= names
  }

  function AllBorders(byLeaf: Leaves): set<string> {
    set id, s | id in byLeaf && s in byLeaf[id].borders :: s
  }

  // The border switches of a topology are told apart by trimming.
  ghost predicate BordersTold(byLeaf: Leaves) {
    ToldApartTrimmed(AllBorders(byLeaf))
  }

  lemma TrimmedSubset(names: set<string>, x: set<string>, y: set<string>)
    requires ToldApartTrimmed(names) && x <= names && y <= names && Unique(x) == Unique(y) && y != {}
    ensures x <= y
  {
    forall s | s in x ensures s in y {
      if Trim(s) == "" {
        var t :| t in y;
        assert t == s;
      } else {
        assert Trim(s) in Unique(x);
        var t :| t in y && Trim(t) == Trim(s);
        assert t == s;
      }
    }
  }

  // Names that trimming tells apart are determined by their trimmed set.
  lemma SameTrimmed(names: set<string>, x: set<string>, y: set<string>)
    requires ToldApartTrimmed(names) && x <= names && y <= names && Unique(x) == Unique(y) && (x == {} <==> y == {})
    ensures x == y
  {
    hide ToldApartTrimmed, Unique;
    if x != {} {
      TrimmedSubset(names, x, y);
      TrimmedSubset(names, y, x);
    }
  }

  ghost predicate SpineLaw(byLeaf: Leaves) {
    forall id :: id in byLeaf ==> byLeaf[id].spineDomain == SpineDomain(byLeaf[id])
  }

  // One border domain means one set of (trimmed) border switches.
  ghost predicate BorderLaw(byLeaf: Leaves) {
    && (forall id :: id in byLeaf ==> (byLeaf[id].borderDomain == NoId <==> byLeaf[id].borders == {}))
    && (forall a, b :: a in byLeaf && b in byLeaf && byLeaf[a].borderDomain == byLeaf[b].borderDomain ==>
          Unique(byLeaf[a].borders) == Unique(byLeaf[b].borders))
  }

  predicate SameDomains(x: Leaf, y: Leaf) {
    && x.region == y.region && x.location == y.location && x.dataCenter == y.dataCenter && x.room == y.room
    && x.spineDomain == y.spineDomain && x.borderDomain == y.borderDomain && x.uplinkDomain == y.uplinkDomain
    && x.leafDomain == y.leafDomain && x.leafDomainLeaves == y.leafDomainLeaves
  }

  // A leaf of the cache is a leaf as read with its domains added.
  ghost predicate OfRead(c: Config, mode: Mode, raw: Leaf, leaf: Leaf) {
    leaf == WithDomains(c, mode, raw).(leafDomain := leaf.leafDomain, leafDomainLeaves := leaf.leafDomainLeaves)
  }

  lemma CompiledField(c: Config, read: Leaves, cache: Cache, id: string)
    requires Compiled(c, read, cache) && id in cache.byLeaf
    ensures id in read && OfRead(c, cache.mode, read[id], cache.byLeaf[id])
    ensures read[id].spines != {} || read[id].borders != {}
    ensures exists room :: HasLeaf(c, room, id) && room in c.rooms && read[id] == ReadLeaf(c, room, id)
  {
    hide AllConsistent, Table, Readable, Holds, WithDomains;
    ReadField(c, read, id);
  }

  lemma ReadField(c: Config, read: Leaves, id: string)
    requires ScopesLinked(c) && Readable(c) && Holds(c, read, c.topology.Keys) && id in read
    ensures read[id].spines != {} || read[id].borders != {}
    ensures exists room :: HasLeaf(c, room, id) && room in c.rooms && read[id] == ReadLeaf(c, room, id)
  {
    var room :| room in c.topology.Keys && HasLeaf(c, room, id);
    assert read[id] == ReadLeaf(c, room, id);
  }

  lemma BorderNames(c: Config, a: Leaf, b: Leaf)
    requires BorderDomain(c, a) == BorderDomain(c, b)
    ensures Unique(a.borders) == Unique(b.borders)
    ensures BorderDomain(c, a) == NoId <==> a.borders == {}
  {
    if a.borders != {} && Configured(c.borderDomains, a.room, a.borders) != NoId {
      var id :| Matching(c.borderDomains, a.room, a.borders) == {id};
      var id' :| Matching(c.borderDomains, b.room, b.borders) == {id'};
      assert id in Matching(c.borderDomains, a.room, a.borders) && id in Matching(c.borderDomains, b.room, b.borders);
    }
  }

  lemma CompiledLaws(c: Config, read: Leaves, cache: Cache)
    requires Compiled(c, read, cache)
    ensures SpineLaw(cache.byLeaf) && BorderLaw(cache.byLeaf)
  {
    forall id | id in cache.byLeaf
      ensures cache.byLeaf[id].spineDomain == SpineDomain(cache.byLeaf[id])
      ensures cache.byLeaf[id].borderDomain == NoId <==> cache.byLeaf[id].borders == {}
    {
      CompiledField(c, read, cache, id);
      BorderNames(c, read[id], read[id]);
    }
    forall a, b | a in cache.byLeaf && b in cache.byLeaf && cache.byLeaf[a].borderDomain == cache.byLeaf[b].borderDomain
      ensures Unique(cache.byLeaf[a].borders) == Unique(cache.byLeaf[b].borders)
    {
      CompiledField(c, read, cache, a);
      CompiledField(c, read, cache, b);
      BorderNames(c, read[a], read[b]);
    }
  }

  // ---- Switches and the domains they resolve to ----

  lemma SharedSpine(byLeaf: Leaves, aliases: Aliases, a: string, b: string, switch: string)
    requires a in byLeaf && b in byLeaf && Table(byLeaf, byLeaf.Keys, SpineKind, aliases) && SpineLaw(byLeaf)
    requires switch in byLeaf[a].spines
    ensures Name(switch) in aliases
    ensures switch in byLeaf[b].spines <==> byLeaf[b].spineDomain == aliases[Name(switch)]
    ensures switch in byLeaf[b].spines ==> byLeaf[a].spines == byLeaf[b].spines
  {
    assert Name(switch) in NamesOf(byLeaf[a], SpineKind);
    assert aliases[Name(switch)] == byLeaf[a].spineDomain == SpinesOf(byLeaf[a].spines);
    if switch in byLeaf[b].spines {
      assert Name(switch) in NamesOf(byLeaf[b], SpineKind);
      assert aliases[Name(switch)] == byLeaf[b].spineDomain;
    }
  }

  lemma SharedBorder(byLeaf: Leaves, aliases: Aliases, a: string, b: string, switch: string)
    requires a in byLeaf && b in byLeaf && Table(byLeaf, byLeaf.Keys, BorderKind, aliases) && BorderLaw(byLeaf)
    requires switch in byLeaf[a].borders
    ensures Name(switch) in aliases
    ensures switch in byLeaf[b].borders ==> byLeaf[b].borderDomain == aliases[Name(switch)]
    ensures byLeaf[b].borderDomain == aliases[Name(switch)] ==>
              Unique(byLeaf[a].borders) == Unique(byLeaf[b].borders) && byLeaf[b].borders != {}
  {
    assert Name(switch) in NamesOf(byLeaf[a], BorderKind);
    assert aliases[Name(switch)] == byLeaf[a].borderDomain;
    if switch in byLeaf[b].borders {
      assert Name(switch) in NamesOf(byLeaf[b], BorderKind);
      assert aliases[Name(switch)] == byLeaf[b].borderDomain;
    }
  }

  lemma SharedBorderTold(byLeaf: Leaves, aliases: Aliases, a: string, b: string, switch: string, names: set<string>)
    requires a in byLeaf && b in byLeaf && Table(byLeaf, byLeaf.Keys, BorderKind, aliases) && BorderLaw(byLeaf)
    requires switch in byLeaf[a].borders && BordersIn(byLeaf, names) && ToldApartTrimmed(names)
    ensures Name(switch) in aliases
    ensures byLeaf[b].borderDomain == aliases[Name(switch)] <==> switch in byLeaf[b].borders
    ensures switch in byLeaf[b].borders ==> byLeaf[a].borders == byLeaf[b].borders
  {
    hide Table, BorderLaw, ToldApartTrimmed, Unique;
    SharedBorder(byLeaf, aliases, a, b, switch);
    if byLeaf[b].borderDomain == aliases[Name(switch)] {
      SameTrimmed(names, byLeaf[a].borders, byLeaf[b].borders);
    }
  }

  // Main result: after a successful build, any two leaves' spine sets are equal or disjoint, and so are their
  // border sets when trimming tells the border switches apart.
  lemma SwitchSetsEqualOrDisjoint(c: Config, read: Leaves, cache: Cache, a: string, b: string)
    requires Compiled(c, read, cache) && a in cache.byLeaf && b in cache.byLeaf
    ensures cache.byLeaf[a].spines == cache.byLeaf[b].spines || cache.byLeaf[a].spines !! cache.byLeaf[b].spines
    ensures Unique(cache.byLeaf[a].borders) == Unique(cache.byLeaf[b].borders) || cache.byLeaf[a].borders !! cache.byLeaf[b].borders
    ensures BordersTold(cache.byLeaf) ==>
              cache.byLeaf[a].borders == cache.byLeaf[b].borders || cache.byLeaf[a].borders !! cache.byLeaf[b].borders
  {
    hide Unique, ToldApartTrimmed, SpineLaw, BorderLaw;
    CompiledLaws(c, read, cache);
    if s :| s in cache.byLeaf[a].spines && s in cache.byLeaf[b].spines {
      SharedSpine(cache.byLeaf, cache.spineAliases, a, b, s);
    }
    if s :| s in cache.byLeaf[a].borders && s in cache.byLeaf[b].borders {
      SharedBorder(cache.byLeaf, cache.borderAliases, a, b, s);
      if BordersTold(cache.byLeaf) {
        SharedBorderTold(cache.byLeaf, cache.borderAliases, a, b, s, AllBorders(cache.byLeaf));
      }
    }
  }

  // Main result: filtering leaves by the domain a spine switch resolves to selects exactly the leaves that are
  // physically adjacent to that switch.
  lemma SpineAliasSelectsAdjacent(c: Config, read: Leaves, cache: Cache, switch: string, id: string)
    requires Compiled(c, read, cache) && id in cache.byLeaf
    requires exists l :: l in cache.byLeaf && switch in cache.byLeaf[l].spines
    ensures Name(switch) in cache.spineAliases
    ensures cache.byLeaf[id].spineDomain == cache.spineAliases[Name(switch)] <==> switch in cache.byLeaf[id].spines
  {
    var l :| l in cache.byLeaf && switch in cache.byLeaf[l].spines;
    CompiledLaws(c, read, cache);
    SharedSpine(cache.byLeaf, cache.spineAliases, l, id, switch);
  }

  // Every border switch of some leaf selects exactly the leaves that list it.
  ghost predicate BordersSelect(cache: Cache) {
    forall l, id, switch :: l in cache.byLeaf && id in cache.byLeaf && switch in cache.byLeaf[l].borders ==>
      Name(switch) in cache.borderAliases && SelectsLeaf(cache, switch, id)
  }

  ghost predicate SelectsLeaf(cache: Cache, switch: string, id: string)
    requires Name(switch) in cache.borderAliases && id in cache.byLeaf
  {
    cache.byLeaf[id].borderDomain == cache.borderAliases[Name(switch)] <==> switch in cache.byLeaf[id].borders
  }

  // Whatever is compiled from border switches of these names.
  ghost predicate AlwaysSelects(names: set<string>) {
    forall c, read, cache :: Compiled(c, read, cache) && BordersIn(cache.byLeaf, names) ==> BordersSelect(cache)
  }

  lemma ToldApartSelects(c: Config, read: Leaves, cache: Cache, names: set<string>)
    requires Compiled(c, read, cache) && BordersIn(cache.byLeaf, names) && ToldApartTrimmed(names)
    ensures BordersSelect(cache)
  {
    hide ToldApartTrimmed, BordersIn, SpineLaw, BorderLaw, Compiled, Table;
    CompiledLaws(c, read, cache);
    BorderTable(c, read, cache);
    forall l, id, switch | l in cache.byLeaf && id in cache.byLeaf && switch in cache.byLeaf[l].borders
      ensures Name(switch) in cache.borderAliases && SelectsLeaf(cache, switch, id)
    {
      SharedBorderTold(cache.byLeaf, cache.borderAliases, l, id, switch, names);
    }
  }

  lemma BorderTable(c: Config, read: Leaves, cache: Cache)
    requires Compiled(c, read, cache)
    ensures Table(cache.byLeaf, cache.byLeaf.Keys, BorderKind, cache.borderAliases)
  {
    hide Readable, Holds, AllConsistent, Blocked, Table;
  }

  // With other names a leaf can also be selected through a switch that its own list spells with other blanks, but
  // only so: every leaf selected lists the switch up to blanks.
  lemma BorderAliasSelectsAdjacent(c: Config, read: Leaves, cache: Cache, switch: string, id: string)
    requires Compiled(c, read, cache) && id in cache.byLeaf
    requires exists l :: l in cache.byLeaf && switch in cache.byLeaf[l].borders
    ensures Name(switch) in cache.borderAliases
    ensures switch in cache.byLeaf[id].borders ==> cache.byLeaf[id].borderDomain == cache.borderAliases[Name(switch)]
    ensures cache.byLeaf[id].borderDomain == cache.borderAliases[Name(switch)] && Trim(switch) != "" ==>
              Trim(switch) in Unique(cache.byLeaf[id].borders)
    ensures BordersTold(cache.byLeaf) ==> SelectsLeaf(cache, switch, id)
  {
    hide ToldApartTrimmed, SpineLaw, BorderLaw, Table;
    var l :| l in cache.byLeaf && switch in cache.byLeaf[l].borders;
    CompiledLaws(c, read, cache);
    SharedBorder(cache.byLeaf, cache.borderAliases, l, id, switch);
    assert Trim(switch) != "" ==> Trim(switch) in Unique(cache.byLeaf[l].borders);
    if BordersTold(cache.byLeaf) {
      SharedBorderTold(cache.byLeaf, cache.borderAliases, l, id, switch, AllBorders(cache.byLeaf));
    }
  }

  lemma UplinkDecides(mode: Mode, x: Leaf, y: Leaf)
    requires SameUplink(mode, x, y)
    requires x.uplinkDomain == UplinkDomain(mode, x.spineDomain, x.borderDomain)
    requires y.uplinkDomain == UplinkDomain(mode, y.spineDomain, y.borderDomain)
    ensures x.spineDomain == y.spineDomain && x.borderDomain == y.borderDomain && x.uplinkDomain == y.uplinkDomain
  {
  }

  // Main result: two leaves of one leaf domain agree on every other domain, so nothing that is derived from a
  // Node's leaves (whose ids are trimmed) depends on which of them is taken first.
  lemma LeafDomainDecidesTheRest(c: Config, read: Leaves, cache: Cache, a: string, b: string)
    requires Compiled(c, read, cache) && a in cache.byLeaf && b in cache.byLeaf && Clean(a) && Clean(b)
    requires cache.byLeaf[a].leafDomain == cache.byLeaf[b].leafDomain
    ensures SameDomains(cache.byLeaf[a], cache.byLeaf[b])
  {
    hide AllConsistent, Clean, Readable, Holds, Table;
    CompiledField(c, read, cache, a);
    CompiledField(c, read, cache, b);
    DomainsPartitionLeaves(Domained(c, cache.mode, read), cache.mode, cache.byLeaf, a, b);
    UplinkDecides(cache.mode, cache.byLeaf[a], cache.byLeaf[b]);
    SameScopes(c, read, cache, a, b);
  }

  lemma SameScopes(c: Config, read: Leaves, cache: Cache, a: string, b: string)
    requires Compiled(c, read, cache) && a in cache.byLeaf && b in cache.byLeaf && cache.byLeaf[a].room == cache.byLeaf[b].room
    ensures cache.byLeaf[a].region == cache.byLeaf[b].region && cache.byLeaf[a].location == cache.byLeaf[b].location
    ensures cache.byLeaf[a].dataCenter == cache.byLeaf[b].dataCenter
  {
    hide AllConsistent, Table, Filled, Readable, Holds;
    CompiledField(c, read, cache, a);
    CompiledField(c, read, cache, b);
  }

  // ---- Two leaves in one room ----

  // Two unpaired leaves with these border switches, and one configured border domain of these members.
  datatype Pair = Pair(scope: string, a: string, b: string, left: set<string>, right: set<string>, domain: string, members: set<string>) {
    predicate Proper() {
      scope != "" && Clean(a) && Clean(b) && a != b && left != {} && right != {}
    }
  }

  function PairConfig(e: Pair): Config {
    Config({e.scope}, map[e.scope := e.scope], map[e.scope := e.scope], map[e.scope := e.scope], map[e.domain := BorderConfig(e.scope, e.members)],
           map[e.scope := map[e.a := Adjacency({}, e.left, {}), e.b := Adjacency({}, e.right, {})]])
  }

  function PairRead(e: Pair): Leaves {
    map[e.a := PairLeaf(e, e.a, e.left), e.b := PairLeaf(e, e.b, e.right)]
  }

  function PairLeaf(e: Pair, id: string, borders: set<string>): Leaf {
    Leaf(e.scope, e.scope, e.scope, e.scope, id, {}, borders, {}, NoId, NoId, NoId, NoId, {})
  }

  lemma PairIsLinked(e: Pair)
    requires e.Proper()
    ensures Nonempty(PairConfig(e)) && ScopesLinked(PairConfig(e))
  {
    var c := PairConfig(e);
    assert e.scope in c.regions && e.scope in c.locations && e.scope in c.dataCenters && e.scope in c.rooms;
  }

  lemma PairHas(e: Pair, room: string, leaf: string)
    requires e.Proper()
    ensures HasLeaf(PairConfig(e), room, leaf) <==> room == e.scope && (leaf == e.a || leaf == e.b)
  {
  }

  lemma PairIsReadable(e: Pair)
    requires e.Proper()
    ensures Readable(PairConfig(e))
  {
    var c := PairConfig(e);
    forall room, leaf ensures HasLeaf(c, room, leaf) <==> room == e.scope && (leaf == e.a || leaf == e.b) {
      PairHas(e, room, leaf);
    }
    assert Uplinked(Adjacency({}, e.left, {})) && Uplinked(Adjacency({}, e.right, {}));
  }

  lemma PairIsRead(e: Pair)
    requires e.Proper() && ScopesLinked(PairConfig(e))
    ensures Readable(PairConfig(e)) && Holds(PairConfig(e), PairRead(e), PairConfig(e).topology.Keys)
  {
    hide Clean;
    PairIsReadable(e);
    hide Readable, ReadLeaf, ScopesLinked;
    var c, read := PairConfig(e), PairRead(e);
    PairReadLeaf(e);
    forall room, leaf ensures HasLeaf(c, room, leaf) <==> room == e.scope && (leaf == e.a || leaf == e.b) {
      PairHas(e, room, leaf);
    }
  }

  lemma PairReadLeaf(e: Pair)
    requires e.Proper() && ScopesLinked(PairConfig(e))
    ensures HasLeaf(PairConfig(e), e.scope, e.a) && HasLeaf(PairConfig(e), e.scope, e.b)
    ensures ReadLeaf(PairConfig(e), e.scope, e.a) == PairLeaf(e, e.a, e.left)
    ensures ReadLeaf(PairConfig(e), e.scope, e.b) == PairLeaf(e, e.b, e.right)
  {
  }

  // The border domain of a leaf: the configured one if its switches are the members, else one of its own.
  lemma PairBorder(e: Pair, id: string, borders: set<string>)
    requires borders != {} && e.domain != ""
    ensures BorderDomain(PairConfig(e), PairLeaf(e, id, borders)) == if Unique(borders) == Unique(e.members) then Name(e.domain) else BordersOf(borders)
  {
    var domains := PairConfig(e).borderDomains;
    assert Matching(domains, e.scope, borders) == if Unique(borders) == Unique(e.members) then {e.domain} else {};
  }

  // Without peers and spines it builds unless two border domains share a name.
  lemma PairBuilds(e: Pair, x: Id, y: Id)
    requires e.Proper()
    requires x == BorderDomain(PairConfig(e), PairLeaf(e, e.a, e.left)) && y == BorderDomain(PairConfig(e), PairLeaf(e, e.b, e.right))
    requires x == y || {x} + Names(e.left) !! {y} + Names(e.right)
    ensures Builds(PairConfig(e), PairRead(e))
  {
    hide Readable, Holds, ScopesLinked, Nonempty, Buildable, BorderDomain;
    PairIsLinked(e);
    PairIsRead(e);
    PairIsBuildable(e, x, y);
    assert e.a in PairRead(e);
  }

  lemma PairIsBuildable(e: Pair, x: Id, y: Id)
    requires e.Proper()
    requires x == BorderDomain(PairConfig(e), PairLeaf(e, e.a, e.left)) && y == BorderDomain(PairConfig(e), PairLeaf(e, e.b, e.right))
    requires x == y || {x} + Names(e.left) !! {y} + Names(e.right)
    ensures Buildable(PairConfig(e), PairRead(e))
  {
    hide AllConsistent, NoConflict, BorderDomain, ModeOf, PairConfig, Clean, Names, UplinkDomain;
    var read := PairRead(e);
    var mode := ModeOf(read);
    var domained := Domained(PairConfig(e), mode, read);
    assert read.Keys == {e.a, e.b} && domained.Keys == read.Keys;
    NoPeersConsistent(domained, mode);
    PairConflict(domained, e.a, e.b);
  }

  lemma PairConflict(byLeaf: Leaves, a: string, b: string)
    requires byLeaf.Keys == {a, b} && byLeaf[a].spineDomain == byLeaf[b].spineDomain
    requires byLeaf[a].borderDomain == byLeaf[b].borderDomain || NamesOf(byLeaf[a], BorderKind) !! NamesOf(byLeaf[b], BorderKind)
    ensures NoConflict(byLeaf, byLeaf.Keys, SpineKind) && NoConflict(byLeaf, byLeaf.Keys, BorderKind)
  {
    hide NamesOf;
    forall k, l, n | k in byLeaf && l in byLeaf && n in NamesOf(byLeaf[k], BorderKind) && n in NamesOf(byLeaf[l], BorderKind)
      ensures byLeaf[k].borderDomain == byLeaf[l].borderDomain
    {
      assert (k == a || k == b) && (l == a || l == b);
    }
  }

  lemma NoPeersConsistent(byLeaf: Leaves, mode: Mode)
    requires CleanKeys(byLeaf) && forall id :: id in byLeaf ==> byLeaf[id].peers == {}
    ensures AllConsistent(byLeaf, mode)
  {
    hide Consistent, Clean;
    forall id | id in byLeaf ensures Consistent(byLeaf, mode, id) {
      Lonely(byLeaf, mode, id);
    }
  }

  lemma Lonely(byLeaf: Leaves, mode: Mode, id: string)
    requires id in byLeaf && Clean(id) && byLeaf[id].peers == {}
    ensures Consistent(byLeaf, mode, id)
  {
    MembersOfClean(id, byLeaf[id]);
    assert Peers(byLeaf[id]) == {};
    assert Members(id, byLeaf[id]) == {id};
    assert {id} - {id} == {};
  }

  // No peers, and these switch domains.
  ghost predicate OnlyIn(c: Config, leaf: Leaf, spine: Id, border: Id) {
    leaf.peers == {} && SpineDomain(leaf) == spine && BorderDomain(c, leaf) == border
  }

  lemma OneDomainEach(byLeaf: Leaves, spine: Id, border: Id)
    requires forall id :: id in byLeaf ==> byLeaf[id].spineDomain == spine && byLeaf[id].borderDomain == border
    ensures NoConflict(byLeaf, byLeaf.Keys, SpineKind) && NoConflict(byLeaf, byLeaf.Keys, BorderKind)
  {
  }

  lemma OneDomainBuilds(c: Config, read: Leaves, spine: Id, border: Id)
    requires CleanKeys(read) && forall id :: id in read ==> OnlyIn(c, read[id], spine, border)
    ensures Buildable(c, read)
  {
    hide AllConsistent, Clean, NoConflict;
    var mode := ModeOf(read);
    var domained := Domained(c, mode, read);
    NoPeersConsistent(domained, mode);
    OneDomainEach(domained, spine, border);
    assert domained.Keys == read.Keys;
  }

  lemma TwoLeavesBuild(c: Config, a: string, x: Leaf, b: string, y: Leaf, spine: Id, border: Id)
    requires Clean(a) && Clean(b) && a != b && OnlyIn(c, x, spine, border) && OnlyIn(c, y, spine, border)
    ensures Buildable(c, map[a := x, b := y])
  {
    OneDomainBuilds(c, map[a := x, b := y], spine, border);
  }

  // ---- Border sets of untrimmed names ----

  // Any such names will do: the scopes share one name, a and b are leaves; of their border switches, s is blank or
  // t with other blanks around it.
  datatype Example = Example(scope: string, a: string, b: string, s: string, t: string) {
    predicate Proper() {
      scope != "" && Clean(a) && Clean(b) && a != b && s != t && (Trim(s) == Trim(t) || Trim(s) == "")
    }
  }

  // Leaves whose border lists {s, t} and {t} match one configured domain.
  function Padded(e: Example): Pair {
    Pair(e.scope, e.a, e.b, {e.s, e.t}, {e.t}, e.scope, {e.t})
  }

  lemma PaddedBuilds(e: Example)
    requires e.Proper()
    ensures Padded(e).Proper() && Builds(PairConfig(Padded(e)), PairRead(Padded(e)))
  {
    hide Builds, BorderDomain, PairConfig, PairRead;
    assert e.t in {e.s, e.t} && e.t in {e.t};
    assert Unique({e.s, e.t}) == Unique({e.t});
    PairBorder(Padded(e), e.a, {e.s, e.t});
    PairBorder(Padded(e), e.b, {e.t});
    PairBuilds(Padded(e), Name(e.scope), Name(e.scope));
  }

  ghost predicate BordersEqualOrDisjoint(read: Leaves) {
    forall a, b :: a in read && b in read ==> read[a].borders == read[b].borders || read[a].borders !! read[b].borders
  }

  // Whatever is compiled from border switches of these names.
  ghost predicate AlwaysEqualOrDisjoint(names: set<string>) {
    forall c, read, cache :: Compiled(c, read, cache) && BordersIn(cache.byLeaf, names) ==> BordersEqualOrDisjoint(cache.byLeaf)
  }

  // Every switch selects exactly the leaves that list it: then two leaves that share one share all.
  lemma SelectingIsDisjoint(cache: Cache)
    requires BordersSelect(cache)
    ensures BordersEqualOrDisjoint(cache.byLeaf)
  {
    hide BordersSelect;
    forall a, b | a in cache.byLeaf && b in cache.byLeaf
      ensures cache.byLeaf[a].borders == cache.byLeaf[b].borders || cache.byLeaf[a].borders !! cache.byLeaf[b].borders
    {
      if switch :| switch in cache.byLeaf[a].borders && switch in cache.byLeaf[b].borders {
        AllShared(cache, a, b, switch);
        AllShared(cache, b, a, switch);
      }
    }
  }

  lemma AllShared(cache: Cache, a: string, b: string, switch: string)
    requires BordersSelect(cache) && a in cache.byLeaf && b in cache.byLeaf
    requires switch in cache.byLeaf[a].borders && switch in cache.byLeaf[b].borders
    ensures cache.byLeaf[a].borders <= cache.byLeaf[b].borders
  {
    assert SelectsLeaf(cache, switch, a) && SelectsLeaf(cache, switch, b);
    forall s | s in cache.byLeaf[a].borders ensures s in cache.byLeaf[b].borders {
      assert SelectsLeaf(cache, s, a) && SelectsLeaf(cache, s, b);
    }
  }

  // Main result: whatever the topology over these switch names, the leaves in the domain that a border switch resolves
  // to are exactly those that list it, and any two leaves' border sets are equal or disjoint, exactly when
  // trimming tells the names apart and no other name stands beside a blank one. (The build compares configured
  // members trimmed, but enters border switches as they are spelled.)
  lemma BordersSelectExactly(names: set<string>, scope: string, a: string, b: string)
    requires scope != "" && Clean(a) && Clean(b) && a != b
    ensures AlwaysSelects(names) <==> ToldApartTrimmed(names)
    ensures AlwaysEqualOrDisjoint(names) <==> ToldApartTrimmed(names)
  {
    if ToldApartTrimmed(names) {
      hide Compiled, ToldApartTrimmed, BordersSelect, BordersEqualOrDisjoint, BordersIn;
      forall c, read, cache | Compiled(c, read, cache) && BordersIn(cache.byLeaf, names)
        ensures BordersSelect(cache) && BordersEqualOrDisjoint(cache.byLeaf)
      {
        ToldApartSelects(c, read, cache, names);
        SelectingIsDisjoint(cache);
      }
    } else {
      hide Compiled, BordersSelect, BordersEqualOrDisjoint, BordersIn;
      var s, t :| s in names && t in names && s != t && (Trim(s) == Trim(t) || Trim(s) == "");
      PaddedOverlaps(Example(scope, a, b, s, t), names);
    }
  }

  // Filtering by e.s also selects leaf e.b, which does not list it.
  lemma PaddedOverlaps(e: Example, names: set<string>)
    requires e.Proper() && {e.s, e.t} <= names
    ensures !AlwaysEqualOrDisjoint(names) && !AlwaysSelects(names)
  {
    hide Builds, Compiled;
    PaddedBuilds(e);
    BuildsHasCache(PairConfig(Padded(e)), PairRead(Padded(e)));
    var cache :| Compiled(PairConfig(Padded(e)), PairRead(Padded(e)), cache);
    PairBorders(Padded(e), cache);
    assert !BordersEqualOrDisjoint(cache.byLeaf);
    if BordersSelect(cache) { SelectingIsDisjoint(cache); }
  }

  lemma CompiledKeys(c: Config, read: Leaves, cache: Cache)
    requires Compiled(c, read, cache)
    ensures cache.byLeaf.Keys == read.Keys
  {
    hide AllConsistent, Table, Readable, Holds;
  }

  lemma CompiledBorders(c: Config, read: Leaves, cache: Cache, id: string)
    requires Compiled(c, read, cache) && id in cache.byLeaf
    ensures id in read && cache.byLeaf[id].borders == read[id].borders
  {
    hide Compiled;
    CompiledField(c, read, cache, id);
  }

  lemma PairBorders(e: Pair, cache: Cache)
    requires e.Proper() && Compiled(PairConfig(e), PairRead(e), cache)
    ensures cache.byLeaf.Keys == {e.a, e.b} && cache.byLeaf[e.a].borders == e.left && cache.byLeaf[e.b].borders == e.right
  {
    hide Compiled, OfRead;
    CompiledKeys(PairConfig(e), PairRead(e), cache);
    CompiledBorders(PairConfig(e), PairRead(e), cache, e.a);
    CompiledBorders(PairConfig(e), PairRead(e), cache, e.b);
  }

  // ---- Spine and border domains are not confined to a room ----

  // Two leaves in two rooms, wired to the same spine and border switch.
  function WideConfig(scope: string, room1: string, room2: string, a: string, b: string, switch: string): Config {
    Config({scope}, map[scope := scope], map[scope := scope], map[room1 := scope, room2 := scope], map[],
           map[room1 := map[a := Adjacency({switch}, {switch}, {})], room2 := map[b := Adjacency({switch}, {switch}, {})]])
  }

  function WideLeaf(scope: string, room: string, id: string, switch: string): Leaf {
    Leaf(scope, scope, scope, room, id, {switch}, {switch}, {}, NoId, NoId, NoId, NoId, {})
  }

  // The build checks only that paired leaves share a room: it accepts a spine (and a border) domain across two rooms.
  lemma SpineDomainMaySpanRooms(scope: string, room1: string, room2: string, a: string, b: string, switch: string)
    requires scope != "" && room1 != "" && room2 != "" && room1 != room2 && Clean(a) && Clean(b) && a != b
    ensures var c, x, y := WideConfig(scope, room1, room2, a, b, switch), WideLeaf(scope, room1, a, switch), WideLeaf(scope, room2, b, switch);
            Builds(c, map[a := x, b := y]) && x.room != y.room && SpineDomain(x) == SpineDomain(y) != NoId
  {
    hide Buildable, Readable, Holds, ScopesLinked, Nonempty, Clean;
    var c := WideConfig(scope, room1, room2, a, b, switch);
    WideIsLinked(scope, room1, room2, a, b, switch);
    WideIsRead(scope, room1, room2, a, b, switch);
    assert forall room, borders :: Configured(c.borderDomains, room, borders) == NoId by {
      forall room, borders ensures Configured(c.borderDomains, room, borders) == NoId {
        assert Matching(c.borderDomains, room, borders) == {};
      }
    }
    TwoLeavesBuild(c, a, WideLeaf(scope, room1, a, switch), b, WideLeaf(scope, room2, b, switch), SpinesOf({switch}), BordersOf({switch}));
    assert a in map[a := WideLeaf(scope, room1, a, switch), b := WideLeaf(scope, room2, b, switch)];
  }

  lemma WideHas(scope: string, room1: string, room2: string, a: string, b: string, switch: string, room: string, leaf: string)
    requires room1 != room2 && a != b
    ensures HasLeaf(WideConfig(scope, room1, room2, a, b, switch), room, leaf) <==> (room == room1 && leaf == a) || (room == room2 && leaf == b)
  {
  }

  lemma WideIsLinked(scope: string, room1: string, room2: string, a: string, b: string, switch: string)
    requires scope != "" && room1 != "" && room2 != "" && room1 != room2 && a != b
    ensures var c := WideConfig(scope, room1, room2, a, b, switch);
            Nonempty(c) && ScopesLinked(c) && Readable(c)
  {
    var c := WideConfig(scope, room1, room2, a, b, switch);
    assert scope in c.regions && scope in c.locations && scope in c.dataCenters && room1 in c.rooms;
    forall room, leaf ensures HasLeaf(c, room, leaf) <==> (room == room1 && leaf == a) || (room == room2 && leaf == b) {
      WideHas(scope, room1, room2, a, b, switch, room, leaf);
    }
    assert Uplinked(Adjacency({switch}, {switch}, {})) by { assert switch in {switch}; }
    assert c.topology[room1][a] == c.topology[room2][b] == Adjacency({switch}, {switch}, {});
  }

  lemma WideIsRead(scope: string, room1: string, room2: string, a: string, b: string, switch: string)
    requires room1 != room2 && a != b && ScopesLinked(WideConfig(scope, room1, room2, a, b, switch))
    ensures var c, read := WideConfig(scope, room1, room2, a, b, switch), map[a := WideLeaf(scope, room1, a, switch), b := WideLeaf(scope, room2, b, switch)];
            Holds(c, read, c.topology.Keys)
  {
    var c := WideConfig(scope, room1, room2, a, b, switch);
    forall room, leaf ensures HasLeaf(c, room, leaf) <==> (room == room1 && leaf == a) || (room == room2 && leaf == b) {
      WideHas(scope, room1, room2, a, b, switch, room, leaf);
    }
    assert ReadLeaf(c, room1, a) == WideLeaf(scope, room1, a, switch);
    assert ReadLeaf(c, room2, b) == WideLeaf(scope, room2, b, switch);
  }
}
