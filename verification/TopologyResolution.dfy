/**
Resolving demands and Nodes against a compiled topology: algorithm_server/go/topology/constraints.go and
resolver.go, and the Python filter of algorithm_server/python/algorithm_worker/services/node_view_builder.py
that applies the same constraints to the resolved Nodes.
*/
module TopologyResolution {
  import opened Wrappers
  import opened Text
  import opened LeafDomains
  import opened TopologySource
  import opened TopologyCache

  // The constraint levels; a request could also name one that nobody knows.
  datatype Level = DataCenter | Room | LeafDomain | SpineDomain | BorderDomain | UplinkDomain | Unknown(name: string)

  type Constraints = map<Level, Id>

  const RequiredSame := Name("requiredSame")

  // ---- Matching a leaf, in Go ----

  function LeafValue(leaf: Leaf, level: Level): Id
    requires !level.Unknown?
  {
    match level
    case DataCenter => IdText(leaf.dataCenter)
    case Room => IdText(leaf.room)
    case LeafDomain => leaf.leafDomain
    case SpineDomain => leaf.spineDomain
    case BorderDomain => leaf.borderDomain
    case UplinkDomain => leaf.uplinkDomain
  }

  predicate Meets(actual: Id, expected: Id) {
    if expected == RequiredSame then actual != NoId else actual == expected
  }

  // leafMatches ignores levels it does not know.
  predicate LeafMatches(leaf: Leaf, constraints: Constraints) {
    forall level :: level in constraints && !level.Unknown? ==> Meets(LeafValue(leaf, level), constraints[level])
  }

  method HasMatchingLeaf(cache: Cache, constraints: Constraints) returns (found: bool)
    ensures found <==> SelectsSome(cache, constraints)
  {
    var todo := cache.byLeaf.Keys;
    while todo != {}
      invariant todo <= cache.byLeaf.Keys
      invariant forall id :: id in cache.byLeaf.Keys - todo ==> !LeafMatches(cache.byLeaf[id], constraints)
      decreases todo
    {
      var id :| id in todo;
      if LeafMatches(cache.byLeaf[id], constraints) {
        return true;
      }
      todo := todo - {id};
    }
    found := false;
  }

  // ---- From the labels of a demand to constraints ----

  // A label value: plain text, the text of a domain id, or no text at all.
  datatype LabelValue = Plain(text: string) | DomainText(id: Id) | NotText

  datatype LabelKey = DataCenterKey | RoomKey | BorderSwitchKey | SpineSwitchKey | LeafSwitchKey | OtherKey(text: string)

  function LevelOf(key: LabelKey): Level
    requires !key.OtherKey?
  {
    match key
    case DataCenterKey => DataCenter
    case RoomKey => Room
    case BorderSwitchKey => BorderDomain
    case SpineSwitchKey => SpineDomain
    case LeafSwitchKey => LeafDomain
  }

  function ValueOf(v: LabelValue): Id {
    match v
    case Plain(text) => IdText(Trim(text))
    case DomainText(id) => id
    case NotText => NoId
  }

  predicate AcceptableLabel(key: LabelKey, v: LabelValue) {
    !key.OtherKey? && ValueOf(v) != NoId
  }

  // The requested level of every label; no two keys name the same level.
  function Requested(labels: map<LabelKey, LabelValue>): Constraints {
    RequestedBy(labels, labels.Keys)
  }

  function RequestedBy(labels: map<LabelKey, LabelValue>, keys: set<LabelKey>): Constraints
    requires keys <= labels.Keys
  {
    map key | key in keys && !key.OtherKey? :: LevelOf(key) := ValueOf(labels[key])
  }

  lemma RequestedAdd(labels: map<LabelKey, LabelValue>, keys: set<LabelKey>, key: LabelKey)
    requires keys + {key} <= labels.Keys && key !in keys && !key.OtherKey?
    ensures RequestedBy(labels, keys + {key}) == RequestedBy(labels, keys)[LevelOf(key) := ValueOf(labels[key])]
  {
    hide ValueOf;
    var before, after := RequestedBy(labels, keys), RequestedBy(labels, keys + {key});
    var updated := before[LevelOf(key) := ValueOf(labels[key])];
    forall level | level in after ensures level in updated && updated[level] == after[level] {
      var k :| k in keys + {key} && !k.OtherKey? && LevelOf(k) == level;
    }
    forall level | level in updated ensures level in after {
      if level == LevelOf(key) { assert key in keys + {key}; }
    }
  }

  method ReadLabels(labels: map<LabelKey, LabelValue>) returns (ok: bool, requested: Constraints)
    ensures ok <==> AllAcceptable(labels)
    ensures ok ==> requested == Requested(labels)
  {
    requested := map[];
    var todo := labels.Keys;
    while todo != {}
      invariant todo <= labels.Keys
      invariant forall key :: key in labels.Keys - todo ==> AcceptableLabel(key, labels[key])
      invariant requested == RequestedBy(labels, labels.Keys - todo)
      decreases todo
    {
      var key :| key in todo;
      if key.OtherKey? {
        return false, requested;
      }
      var value := ValueOf(labels[key]);
      if value == NoId {
        return false, requested;
      }
      RequestedAdd(labels, labels.Keys - todo, key);
      assert labels.Keys - (todo - {key}) == labels.Keys - todo + {key};
      requested := requested[LevelOf(key) := value];
      todo := todo - {key};
    }
    ok := true;
  }

  // resolveScope and resolveDomain: add the constraint of one requested level, or fail.
  function ResolveScope(c: Option<Constraints>, requested: Constraints, level: Level, known: set<string>): Option<Constraints> {
    if c.None? || level !in requested then c
    else if requested[level] == RequiredSame || (requested[level].Name? && requested[level].name in known)
    then Some(c.value[level := requested[level]])
    else None
  }

  function ResolveDomain(c: Option<Constraints>, requested: Constraints, level: Level, aliases: Aliases): Option<Constraints> {
    if c.None? || level !in requested then c
    else if requested[level] == RequiredSame then Some(c.value[level := RequiredSame])
    else if requested[level] in aliases then Some(c.value[level := aliases[requested[level]]])
    else None
  }

  // resolveCompatibleUplink for one of its two levels: asking for the same spine or border asks for the same uplink.
  function ResolveUplink(c: Option<Constraints>, requested: Constraints, level: Level, aliases: Aliases): Option<Constraints> {
    if c.None? || level !in requested then c
    else if requested[level] == RequiredSame then Some(c.value[UplinkDomain := RequiredSame])
    else if requested[level] in aliases then Some(c.value[level := aliases[requested[level]]][UplinkDomain := RequiredSame])
    else None
  }

  function Resolution(cache: Cache, requested: Constraints): Option<Constraints> {
    var scoped := ResolveScope(ResolveScope(Some(map[]), requested, DataCenter, cache.dataCenters), requested, Room, cache.rooms);
    var leafed := ResolveDomain(scoped, requested, LeafDomain, cache.leafAliases);
    match cache.mode
    case UplinkCompatible =>
      ResolveUplink(ResolveUplink(leafed, requested, SpineDomain, cache.spineAliases), requested, BorderDomain, cache.borderAliases)
    case Layered =>
      ResolveDomain(ResolveDomain(leafed, requested, SpineDomain, cache.spineAliases), requested, BorderDomain, cache.borderAliases)
  }

  // The levels that one step constrains, if it succeeds.
  lemma StepLevels(c: Constraints, requested: Constraints, level: Level, known: set<string>, aliases: Aliases)
    ensures var scoped := ResolveScope(Some(c), requested, level, known);
            scoped.Some? ==> scoped.value.Keys == c.Keys + ({level} * requested.Keys)
    ensures var named := ResolveDomain(Some(c), requested, level, aliases);
            named.Some? ==> named.value.Keys == c.Keys + ({level} * requested.Keys)
    ensures var linked := ResolveUplink(Some(c), requested, level, aliases);
            linked.Some? ==>
              && linked.value.Keys == c.Keys + Linked(requested, level)
              && (UplinkDomain in Linked(requested, level) ==> linked.value[UplinkDomain] == RequiredSame)
              && (UplinkDomain in c && c[UplinkDomain] == RequiredSame ==> linked.value[UplinkDomain] == RequiredSame)
  {
  }

  // In uplink-compatible mode a keyword for this level is a keyword for the uplink, and a name asks for the same
  // uplink besides.
  function Linked(requested: Constraints, level: Level): set<Level> {
    if level !in requested then {} else if requested[level] == RequiredSame then {UplinkDomain} else {level, UplinkDomain}
  }

  // Which levels are constrained.
  lemma ResolvedLevels(cache: Cache, requested: Constraints)
    requires Resolution(cache, requested).Some?
    ensures var resolved := Resolution(cache, requested).value;
            && resolved.Keys == ({DataCenter, Room, LeafDomain} * requested.Keys)
                                + (if cache.mode == Layered then {SpineDomain, BorderDomain} * requested.Keys
                                   else Linked(requested, SpineDomain) + Linked(requested, BorderDomain))
            && (cache.mode == UplinkCompatible && UplinkDomain in resolved ==> resolved[UplinkDomain] == RequiredSame)
  {
    hide ResolveScope, ResolveDomain, ResolveUplink;
    NoneStays(requested);
    var dc := ResolveScope(Some(map[]), requested, DataCenter, cache.dataCenters);
    var room := ResolveScope(dc, requested, Room, cache.rooms);
    var leaf := ResolveDomain(room, requested, LeafDomain, cache.leafAliases);
    StepLevels(map[], requested, DataCenter, cache.dataCenters, map[]);
    StepLevels(dc.value, requested, Room, cache.rooms, map[]);
    StepLevels(room.value, requested, LeafDomain, {}, cache.leafAliases);
    if cache.mode == Layered {
      var spine := ResolveDomain(leaf, requested, SpineDomain, cache.spineAliases);
      StepLevels(leaf.value, requested, SpineDomain, {}, cache.spineAliases);
      StepLevels(spine.value, requested, BorderDomain, {}, cache.borderAliases);
    } else {
      var spine := ResolveUplink(leaf, requested, SpineDomain, cache.spineAliases);
      StepLevels(leaf.value, requested, SpineDomain, {}, cache.spineAliases);
      StepLevels(spine.value, requested, BorderDomain, {}, cache.borderAliases);
    }
  }

  lemma NoneStays(requested: Constraints)
    ensures forall level, known :: ResolveScope(None, requested, level, known) == None
    ensures forall level, aliases :: ResolveDomain(None, requested, level, aliases) == None
    ensures forall level, aliases :: ResolveUplink(None, requested, level, aliases) == None
  {
  }

  method Constrain(cache: Cache, wanted: Constraints) returns (constraints: Option<Constraints>)
    ensures constraints == Resolution(cache, wanted)
  {
    constraints := Some(map[]);
    constraints := ResolveScope(constraints, wanted, DataCenter, cache.dataCenters);
    constraints := ResolveScope(constraints, wanted, Room, cache.rooms);
    constraints := ResolveDomain(constraints, wanted, LeafDomain, cache.leafAliases);
    if cache.mode == UplinkCompatible {
      constraints := ResolveUplink(constraints, wanted, SpineDomain, cache.spineAliases);
      constraints := ResolveUplink(constraints, wanted, BorderDomain, cache.borderAliases);
    } else {
      constraints := ResolveDomain(constraints, wanted, SpineDomain, cache.spineAliases);
      constraints := ResolveDomain(constraints, wanted, BorderDomain, cache.borderAliases);
    }
  }

  ghost predicate SelectsSome(cache: Cache, constraints: Constraints) {
    exists id :: id in cache.byLeaf && LeafMatches(cache.byLeaf[id], constraints)
  }

  predicate AllAcceptable(labels: map<LabelKey, LabelValue>) {
    forall key :: key in labels ==> AcceptableLabel(key, labels[key])
  }

  // A result exactly when every label is acceptable, resolves, and some leaf satisfies them all.
  ghost predicate LabelsResolve(cache: Cache, labels: map<LabelKey, LabelValue>, result: Option<Constraints>) {
    var resolved := Resolution(cache, Requested(labels));
    result == if AllAcceptable(labels) && resolved.Some? && SelectsSome(cache, resolved.value) then resolved else None
  }

  method ResolveDemandTopologyLabels(cache: Cache, labels: map<LabelKey, LabelValue>) returns (result: Option<Constraints>)
    ensures LabelsResolve(cache, labels, result)
  {
    var ok, wanted := ReadLabels(labels);
    if !ok {
      return None;
    }
    var constraints := Constrain(cache, wanted);
    if constraints.None? {
      return None;
    }
    var found := HasMatchingLeaf(cache, constraints.value);
    result := if found then constraints else None;
  }

  // ---- What the constraints select ----

  // A leaf provides a requested level: it lies in that scope, or the switch or domain named is one of the names
  // its own domain of that kind answers to (for a switch: the leaf is adjacent to it).
  predicate Provides(leaf: Leaf, level: Level, value: Id) {
    if value == RequiredSame then true
    else if level == DataCenter then value == IdText(leaf.dataCenter)
    else if level == Room then value == IdText(leaf.room)
    else if level == LeafDomain then value in NamesOf(leaf, LeafKind)
    else if level == SpineDomain then value in NamesOf(leaf, SpineKind)
    else value in NamesOf(leaf, BorderKind)
  }

  // The leaf's domain of this kind goes by the name: a leaf of that domain answers to it.
  ghost predicate AnswersTo(byLeaf: Leaves, leaf: Leaf, kind: Kind, v: Id) {
    exists l :: l in byLeaf && DomainOf(byLeaf[l], kind) == DomainOf(leaf, kind) && v in NamesOf(byLeaf[l], kind)
  }

  // The table of the level turns the name into the keyword itself.
  predicate MeansKeyword(cache: Cache, level: Level, v: Id) {
    v in TableOfLevel(cache, level) && TableOfLevel(cache, level)[v] == RequiredSame
  }

  // What the code asks of a leaf: to lie in the scope or in the domain that goes by the name; of a keyword, and of a
  // name that means the keyword, to have any domain of the level.
  ghost predicate Granted(cache: Cache, leaf: Leaf, level: Level, v: Id) {
    if v == RequiredSame then level == LeafDomain ==> leaf.leafDomain != NoId
    else if level == DataCenter then v == IdText(leaf.dataCenter)
    else if level == Room then v == IdText(leaf.room)
    else if level == LeafDomain || level == SpineDomain || level == BorderDomain then
      AnswersTo(cache.byLeaf, leaf, KindOf(level), v) || (MeansKeyword(cache, level, v) && LeafValue(leaf, level) != NoId)
    else true
  }

  function KindOf(level: Level): Kind
    requires level == LeafDomain || level == SpineDomain || level == BorderDomain
  {
    if level == LeafDomain then LeafKind else if level == SpineDomain then SpineKind else BorderKind
  }

  function TableOfLevel(cache: Cache, level: Level): Aliases {
    match level
    case LeafDomain => cache.leafAliases
    case SpineDomain => cache.spineAliases
    case BorderDomain => cache.borderAliases
    case _ => map[]
  }

  const DemandLevels: set<Level> := {DataCenter, Room, LeafDomain, SpineDomain, BorderDomain}

  // The alias table of a kind sends a name to the leaf's domain exactly when the leaf answers to the name.
  ghost predicate AliasesSelect(leaf: Leaf, kind: Kind, aliases: Aliases) {
    forall v :: v in aliases ==> (DomainOf(leaf, kind) == aliases[v] <==> v in NamesOf(leaf, kind))
  }

  lemma TableSelects(byLeaf: Leaves, kind: Kind, aliases: Aliases, id: string)
    requires Table(byLeaf, byLeaf.Keys, kind, aliases) && id in byLeaf
    requires forall b, v :: b in byLeaf && DomainOf(byLeaf[id], kind) == DomainOf(byLeaf[b], kind) && v in NamesOf(byLeaf[b], kind) ==>
               v in NamesOf(byLeaf[id], kind)
    ensures AliasesSelect(byLeaf[id], kind, aliases)
  {
    hide NamesOf, DomainOf;
  }

  lemma SpineNames(byLeaf: Leaves, aliases: Aliases, id: string)
    requires SpineLaw(byLeaf) && Table(byLeaf, byLeaf.Keys, SpineKind, aliases) && id in byLeaf
    ensures AliasesSelect(byLeaf[id], SpineKind, aliases)
  {
    hide Table, AliasesSelect;
    TableSelects(byLeaf, SpineKind, aliases, id);
  }

  lemma BorderNames(byLeaf: Leaves, aliases: Aliases, id: string)
    requires BorderLaw(byLeaf) && BordersTold(byLeaf) && Table(byLeaf, byLeaf.Keys, BorderKind, aliases) && id in byLeaf
    ensures AliasesSelect(byLeaf[id], BorderKind, aliases)
  {
    hide Table, AliasesSelect, ToldApartTrimmed, Unique;
    forall b | b in byLeaf && byLeaf[id].borderDomain == byLeaf[b].borderDomain
      ensures NamesOf(byLeaf[b], BorderKind) == NamesOf(byLeaf[id], BorderKind)
    {
      SameTrimmed(AllBorders(byLeaf), byLeaf[b].borders, byLeaf[id].borders);
    }
    TableSelects(byLeaf, BorderKind, aliases, id);
  }

  // What lies in a block goes by the block's names; a leaf without a domain answers to the empty name only.
  lemma LeafNames(c: Config, read: Leaves, cache: Cache, id: string)
    requires Compiled(c, read, cache) && id in cache.byLeaf && Clean(id)
    ensures AliasesSelect(cache.byLeaf[id], LeafKind, cache.leafAliases)
  {
    hide AliasesSelect, Compiled, Table, Clean, NamesOf;
    forall b, v | b in cache.byLeaf && cache.byLeaf[id].leafDomain == cache.byLeaf[b].leafDomain && v in NamesOf(cache.byLeaf[b], LeafKind)
      ensures v in NamesOf(cache.byLeaf[id], LeafKind)
    {
      SharedLeafName(c, read, cache, id, b, v);
    }
    LeafTable(c, read, cache);
    TableSelects(cache.byLeaf, LeafKind, cache.leafAliases, id);
  }

  lemma SharedLeafName(c: Config, read: Leaves, cache: Cache, id: string, b: string, v: Id)
    requires Compiled(c, read, cache) && id in cache.byLeaf && Clean(id) && b in cache.byLeaf
    requires cache.byLeaf[id].leafDomain == cache.byLeaf[b].leafDomain && v in NamesOf(cache.byLeaf[b], LeafKind)
    ensures v in NamesOf(cache.byLeaf[id], LeafKind)
  {
    hide Compiled, Clean;
    if Clean(b) {
      LeafDomainDecidesTheRest(c, read, cache, id, b);
    } else {
      PassedOver(c, read, cache, b);
    }
  }

  // A leaf id with surrounding blanks is left without a domain.
  lemma PassedOver(c: Config, read: Leaves, cache: Cache, id: string)
    requires Compiled(c, read, cache) && id in cache.byLeaf && !Clean(id)
    ensures cache.byLeaf[id].leafDomain == NoId && cache.byLeaf[id].leafDomainLeaves == {}
  {
    hide AllConsistent, Table, Readable, Holds, ScopesLinked, InBlock, Clean;
    ReadUnassigned(c, read);
  }

  lemma LeafTable(c: Config, read: Leaves, cache: Cache)
    requires Compiled(c, read, cache)
    ensures Table(cache.byLeaf, cache.byLeaf.Keys, LeafKind, cache.leafAliases)
    ensures Table(cache.byLeaf, cache.byLeaf.Keys, SpineKind, cache.spineAliases)
  {
    hide Readable, Holds, AllConsistent, Blocked, Table;
  }

  // Spine aliases select exactly for every leaf, leaf aliases for every clean leaf id, and border aliases when
  // trimming tells the border switches apart (see BordersSelectExactly).
  lemma CompiledAliasesSelect(c: Config, read: Leaves, cache: Cache, id: string)
    requires Compiled(c, read, cache) && id in cache.byLeaf
    ensures AliasesSelect(cache.byLeaf[id], SpineKind, cache.spineAliases)
    ensures Clean(id) ==> AliasesSelect(cache.byLeaf[id], LeafKind, cache.leafAliases)
    ensures BordersTold(cache.byLeaf) ==> AliasesSelect(cache.byLeaf[id], BorderKind, cache.borderAliases)
  {
    hide AliasesSelect, Compiled, Table, Clean, BordersTold, SpineLaw, BorderLaw;
    CompiledLaws(c, read, cache);
    LeafTable(c, read, cache);
    BorderTable(c, read, cache);
    SpineNames(cache.byLeaf, cache.spineAliases, id);
    if BordersTold(cache.byLeaf) { BorderNames(cache.byLeaf, cache.borderAliases, id); }
    if Clean(id) { LeafNames(c, read, cache, id); }
  }

  // A leaf has its scopes and the uplink domains of its mode.
  predicate HasDomains(mode: Mode, leaf: Leaf) {
    && leaf.dataCenter != "" && leaf.room != ""
    && (mode == Layered ==> leaf.spineDomain != NoId && leaf.borderDomain != NoId)
    && (mode == UplinkCompatible ==> leaf.uplinkDomain != NoId)
  }

  lemma ScopeStep(cache: Cache, c: Option<Constraints>, requested: Constraints, level: Level, known: set<string>, leaf: Leaf)
    requires level == DataCenter || level == Room
    requires ResolveScope(c, requested, level, known).Some? && level !in c.value && LeafValue(leaf, level) != NoId
    ensures c.Some?
    ensures var d := ResolveScope(c, requested, level, known).value;
            && d.Keys <= c.value.Keys + {level}
            && (LeafMatches(leaf, d) <==> LeafMatches(leaf, c.value) && (level in requested ==> Granted(cache, leaf, level, requested[level])))
  {
    var d := ResolveScope(c, requested, level, known).value;
    if level in requested {
      assert d == c.value[level := requested[level]];
      MatchAdded(leaf, c.value, level, requested[level]);
    }
  }

  lemma MatchAdded(leaf: Leaf, constraints: Constraints, level: Level, value: Id)
    requires level !in constraints && !level.Unknown?
    ensures LeafMatches(leaf, constraints[level := value]) <==> LeafMatches(leaf, constraints) && Meets(LeafValue(leaf, level), value)
  {
    var d := constraints[level := value];
    if LeafMatches(leaf, d) {
      assert forall l :: l in constraints ==> l in d && d[l] == constraints[l];
      assert level in d;
    }
  }

  // The alias table sends the value to the leaf's domain exactly when that domain goes by the value.
  ghost predicate NamedAs(cache: Cache, leaf: Leaf, level: Level, v: Id)
    requires level == LeafDomain || level == SpineDomain || level == BorderDomain
    requires v in TableOfLevel(cache, level)
  {
    LeafValue(leaf, level) == TableOfLevel(cache, level)[v] <==> AnswersTo(cache.byLeaf, leaf, KindOf(level), v)
  }

  ghost predicate NamedAsAsked(cache: Cache, leaf: Leaf, level: Level, requested: Constraints)
    requires level == LeafDomain || level == SpineDomain || level == BorderDomain
  {
    level in requested && requested[level] in TableOfLevel(cache, level) ==> NamedAs(cache, leaf, level, requested[level])
  }

  // Granting is meeting what the table makes of the name.
  lemma GrantedIsMet(cache: Cache, leaf: Leaf, level: Level, v: Id)
    requires level == LeafDomain || level == SpineDomain || level == BorderDomain
    requires v != RequiredSame && v in TableOfLevel(cache, level) && NamedAs(cache, leaf, level, v)
    ensures Granted(cache, leaf, level, v) <==> Meets(LeafValue(leaf, level), TableOfLevel(cache, level)[v])
    ensures LeafValue(leaf, level) == RequiredSame ==> LeafValue(leaf, level) != NoId
  {
    hide AnswersTo;
  }

  lemma DomainStep(cache: Cache, c: Option<Constraints>, requested: Constraints, level: Level, leaf: Leaf)
    requires level == LeafDomain || level == SpineDomain || level == BorderDomain
    requires ResolveDomain(c, requested, level, TableOfLevel(cache, level)).Some? && level !in c.value
    requires level != LeafDomain ==> LeafValue(leaf, level) != NoId
    requires NamedAsAsked(cache, leaf, level, requested)
    ensures c.Some?
    ensures var d := ResolveDomain(c, requested, level, TableOfLevel(cache, level)).value;
            && d.Keys <= c.value.Keys + {level}
            && (LeafMatches(leaf, d) <==> LeafMatches(leaf, c.value) && (level in requested ==> Granted(cache, leaf, level, requested[level])))
  {
    if level in requested {
      var v := requested[level];
      if v == RequiredSame {
        MatchAdded(leaf, c.value, level, RequiredSame);
      } else {
        hide Granted, LeafMatches;
        MatchAdded(leaf, c.value, level, TableOfLevel(cache, level)[v]);
        GrantedIsMet(cache, leaf, level, v);
      }
    }
  }

  lemma UplinkAdded(leaf: Leaf, c: Constraints)
    requires leaf.uplinkDomain != NoId && (UplinkDomain in c ==> c[UplinkDomain] == RequiredSame)
    ensures LeafMatches(leaf, c[UplinkDomain := RequiredSame]) <==> LeafMatches(leaf, c)
  {
    var d := c[UplinkDomain := RequiredSame];
    assert forall l :: l in c ==> l in d && d[l] == c[l];
  }

  lemma UplinkStep(cache: Cache, c: Option<Constraints>, requested: Constraints, level: Level, leaf: Leaf)
    requires level == SpineDomain || level == BorderDomain
    requires ResolveUplink(c, requested, level, TableOfLevel(cache, level)).Some? && level !in c.value && leaf.uplinkDomain != NoId
    requires UplinkDomain in c.value ==> c.value[UplinkDomain] == RequiredSame
    requires NamedAsAsked(cache, leaf, level, requested)
    ensures c.Some?
    ensures var d := ResolveUplink(c, requested, level, TableOfLevel(cache, level)).value;
            && d.Keys <= c.value.Keys + {level, UplinkDomain} && (UplinkDomain in d ==> d[UplinkDomain] == RequiredSame)
            && (LeafMatches(leaf, d) <==> LeafMatches(leaf, c.value) && (level in requested ==> Granted(cache, leaf, level, requested[level])))
  {
    if level in requested {
      var v := requested[level];
      if v == RequiredSame {
        UplinkAdded(leaf, c.value);
      } else {
        hide Granted, LeafMatches;
        MatchAdded(leaf, c.value, level, TableOfLevel(cache, level)[v]);
        GrantedIsMet(cache, leaf, level, v);
        UplinkAdded(leaf, c.value[level := TableOfLevel(cache, level)[v]]);
      }
    }
  }

  // What one resolution step has to keep: the constraints so far select the leaf exactly when it is granted the
  // levels looked at so far.
  ghost predicate Selecting(cache: Cache, leaf: Leaf, requested: Constraints, seen: set<Level>, c: Option<Constraints>) {
    && c.Some?
    && c.value.Keys <= seen + {UplinkDomain}
    && (UplinkDomain in c.value ==> c.value[UplinkDomain] == RequiredSame)
    && (LeafMatches(leaf, c.value) <==> GrantedAll(cache, leaf, requested, seen))
  }

  ghost predicate GrantedAll(cache: Cache, leaf: Leaf, requested: Constraints, seen: set<Level>) {
    forall level :: level in requested && level in seen ==> Granted(cache, leaf, level, requested[level])
  }

  lemma SelectingScopes(cache: Cache, requested: Constraints, leaf: Leaf)
    requires HasDomains(cache.mode, leaf)
    requires var c1 := ResolveScope(Some(map[]), requested, DataCenter, cache.dataCenters);
             ResolveScope(c1, requested, Room, cache.rooms).Some?
    ensures var c1 := ResolveScope(Some(map[]), requested, DataCenter, cache.dataCenters);
            var c2 := ResolveScope(c1, requested, Room, cache.rooms);
            Selecting(cache, leaf, requested, {DataCenter, Room}, c2) && UplinkDomain !in c2.value
  {
    var c0: Option<Constraints> := Some(map[]);
    var c1 := ResolveScope(c0, requested, DataCenter, cache.dataCenters);
    ScopeStep(cache, c1, requested, Room, cache.rooms, leaf);
    ScopeStep(cache, c0, requested, DataCenter, cache.dataCenters, leaf);
  }

  lemma SelectingDomain(cache: Cache, c: Option<Constraints>, requested: Constraints, level: Level, leaf: Leaf, seen: set<Level>)
    requires level == LeafDomain || level == SpineDomain || level == BorderDomain
    requires Selecting(cache, leaf, requested, seen, c) && level !in seen
    requires ResolveDomain(c, requested, level, TableOfLevel(cache, level)).Some?
    requires level != LeafDomain ==> LeafValue(leaf, level) != NoId
    requires NamedAsAsked(cache, leaf, level, requested)
    ensures Selecting(cache, leaf, requested, seen + {level}, ResolveDomain(c, requested, level, TableOfLevel(cache, level)))
    ensures UplinkDomain !in c.value ==> UplinkDomain !in ResolveDomain(c, requested, level, TableOfLevel(cache, level)).value
  {
    hide LeafMatches, Granted, NamedAs;
    DomainStep(cache, c, requested, level, leaf);
  }

  lemma SelectingUplink(cache: Cache, c: Option<Constraints>, requested: Constraints, level: Level, leaf: Leaf, seen: set<Level>)
    requires level == SpineDomain || level == BorderDomain
    requires Selecting(cache, leaf, requested, seen, c) && level !in seen
    requires ResolveUplink(c, requested, level, TableOfLevel(cache, level)).Some? && leaf.uplinkDomain != NoId
    requires NamedAsAsked(cache, leaf, level, requested)
    ensures Selecting(cache, leaf, requested, seen + {level}, ResolveUplink(c, requested, level, TableOfLevel(cache, level)))
  {
    hide LeafMatches, Granted, NamedAs;
    UplinkStep(cache, c, requested, level, leaf);
  }

  // The three tables of a cache hold exactly the names of its leaves.
  ghost predicate Tabled(cache: Cache) {
    forall kind :: Table(cache.byLeaf, cache.byLeaf.Keys, kind, TableOfKind(cache, kind))
  }

  function TableOfKind(cache: Cache, kind: Kind): Aliases {
    match kind
    case LeafKind => cache.leafAliases
    case SpineKind => cache.spineAliases
    case BorderKind => cache.borderAliases
  }

  lemma CompiledTabled(c: Config, read: Leaves, cache: Cache)
    requires Compiled(c, read, cache)
    ensures Tabled(cache)
  {
    hide Compiled, Table;
    LeafTable(c, read, cache);
    BorderTable(c, read, cache);
    forall kind ensures Table(cache.byLeaf, cache.byLeaf.Keys, kind, TableOfKind(cache, kind)) {
      match kind
      case LeafKind =>
      case SpineKind =>
      case BorderKind =>
    }
  }

  lemma TableNames(cache: Cache, id: string, level: Level, v: Id)
    requires level == LeafDomain || level == SpineDomain || level == BorderDomain
    requires v in TableOfLevel(cache, level) && Tabled(cache) && id in cache.byLeaf
    ensures NamedAs(cache, cache.byLeaf[id], level, v)
  {
    hide NamesOf, Table;
    assert Table(cache.byLeaf, cache.byLeaf.Keys, KindOf(level), TableOfKind(cache, KindOf(level)));
    OwnedName(cache.byLeaf, cache.byLeaf[id], KindOf(level), TableOfLevel(cache, level), v);
  }

  lemma OwnedName(byLeaf: Leaves, leaf: Leaf, kind: Kind, aliases: Aliases, v: Id)
    requires Table(byLeaf, byLeaf.Keys, kind, aliases) && v in aliases
    ensures DomainOf(leaf, kind) == aliases[v] <==> AnswersTo(byLeaf, leaf, kind, v)
  {
    hide NamesOf, DomainOf;
  }

  lemma ResolutionSelects(cache: Cache, requested: Constraints, id: string)
    requires id in cache.byLeaf && HasDomains(cache.mode, cache.byLeaf[id]) && Tabled(cache)
    requires requested.Keys <= DemandLevels && Resolution(cache, requested).Some?
    ensures LeafMatches(cache.byLeaf[id], Resolution(cache, requested).value) <==> GrantedAll(cache, cache.byLeaf[id], requested, DemandLevels)
  {
    hide LeafMatches, Granted, GrantedAll, NamedAs, Tabled;
    var leaf := cache.byLeaf[id];
    var c2 := ResolveScope(ResolveScope(Some(map[]), requested, DataCenter, cache.dataCenters), requested, Room, cache.rooms);
    var c3 := ResolveDomain(c2, requested, LeafDomain, cache.leafAliases);
    SelectingScopes(cache, requested, leaf);
    forall level | level in {LeafDomain, SpineDomain, BorderDomain} ensures NamedAsAsked(cache, leaf, level, requested) {
      if level in requested && requested[level] in TableOfLevel(cache, level) { TableNames(cache, id, level, requested[level]); }
    }
    SelectingDomain(cache, c2, requested, LeafDomain, leaf, {DataCenter, Room});
    if cache.mode == UplinkCompatible {
      var c4 := ResolveUplink(c3, requested, SpineDomain, cache.spineAliases);
      SelectingUplink(cache, c3, requested, SpineDomain, leaf, {DataCenter, Room} + {LeafDomain});
      SelectingUplink(cache, c4, requested, BorderDomain, leaf, {DataCenter, Room} + {LeafDomain} + {SpineDomain});
    } else {
      var c4 := ResolveDomain(c3, requested, SpineDomain, cache.spineAliases);
      SelectingDomain(cache, c3, requested, SpineDomain, leaf, {DataCenter, Room} + {LeafDomain});
      SelectingDomain(cache, c4, requested, BorderDomain, leaf, {DataCenter, Room} + {LeafDomain} + {SpineDomain});
    }
    assert {DataCenter, Room} + {LeafDomain} + {SpineDomain} + {BorderDomain} == DemandLevels;
  }

  lemma ReadScopes(c: Config, room: string, id: string)
    requires ScopesLinked(c) && room in c.rooms && HasLeaf(c, room, id)
    ensures ReadLeaf(c, room, id).dataCenter != "" && ReadLeaf(c, room, id).room != ""
  {
    assert c.rooms[room] in c.dataCenters;
  }

  lemma DomainsPresent(c: Config, mode: Mode, raw: Leaf, leaf: Leaf)
    requires raw.dataCenter != "" && raw.room != "" && OfRead(c, mode, raw, leaf)
    requires raw.spines != {} || raw.borders != {}
    requires mode == Layered ==> !SingleKind(raw)
    ensures HasDomains(mode, leaf)
  {
    TopologyCache.BorderNames(c, raw, raw);
  }

  lemma NotSingle(read: Leaves, id: string)
    requires id in read && ModeOf(read) == Layered
    ensures !SingleKind(read[id])
  {
  }

  // In a compiled topology only the leaf domain can be missing, and only from a leaf whose id is not clean or is the
  // partner of the empty id.
  lemma CompiledHasDomains(c: Config, read: Leaves, cache: Cache, id: string)
    requires Compiled(c, read, cache) && id in cache.byLeaf
    ensures HasDomains(cache.mode, cache.byLeaf[id])
    ensures cache.byLeaf[id].leafDomain != NoId ==> Clean(id)
  {
    hide Readable, Holds, AllConsistent, Table, Clean, OfRead, HasDomains;
    CompiledField(c, read, cache, id);
    var room :| HasLeaf(c, room, id) && room in c.rooms && read[id] == ReadLeaf(c, room, id);
    ReadScopes(c, room, id);
    if cache.mode == Layered { NotSingle(read, id); }
    DomainsPresent(c, cache.mode, read[id], cache.byLeaf[id]);
    if !Clean(id) { PassedOver(c, read, cache, id); }
  }

  // Main result: on every compiled topology the constraints that a demand's labels resolve to select exactly the
  // leaves that are granted every requested level: that lie in the scope, or in the domain that goes by the name
  // asked for (any domain of the level, where the name's domain is called by the keyword).
  lemma LabelsSelectExactly(c: Config, read: Leaves, cache: Cache, requested: Constraints, id: string)
    requires Compiled(c, read, cache) && id in cache.byLeaf
    requires requested.Keys <= DemandLevels && Resolution(cache, requested).Some?
    ensures LeafMatches(cache.byLeaf[id], Resolution(cache, requested).value) <==>
              forall level :: level in requested ==> Granted(cache, cache.byLeaf[id], level, requested[level])
  {
    hide Compiled, HasDomains, Tabled, LeafMatches, Granted, Resolution, Clean;
    CompiledHasDomains(c, read, cache, id);
    CompiledTabled(c, read, cache);
    ResolutionSelects(cache, requested, id);
  }

  // ---- When that is what the leaves provide ----

  // Demands select exactly the leaves (with a leaf domain) that physically provide everything asked for.
  ghost predicate SelectsProviding(cache: Cache) {
    forall requested: Constraints, id: string :: requested.Keys <= DemandLevels && Resolution(cache, requested).Some? && HasLeafDomain(cache, id) ==>
      (LeafMatches(cache.byLeaf[id], Resolution(cache, requested).value) <==> ProvidesAll(cache.byLeaf[id], requested))
  }

  predicate HasLeafDomain(cache: Cache, id: string) {
    id in cache.byLeaf && cache.byLeaf[id].leafDomain != NoId
  }

  predicate ProvidesAll(leaf: Leaf, requested: Constraints) {
    forall level :: level in requested ==> Provides(leaf, level, requested[level])
  }

  // The leaves of a border domain all answer to the names that lead to it.
  ghost predicate BordersSpelled(cache: Cache) {
    forall id, v :: HasLeafDomain(cache, id) && v in cache.borderAliases && v != RequiredSame && cache.byLeaf[id].borderDomain == cache.borderAliases[v] ==>
      v in NamesOf(cache.byLeaf[id], BorderKind)
  }

  // If a border domain is called by the keyword, every leaf with any border domain answers to the names that lead to it.
  ghost predicate KeywordHarmless(cache: Cache) {
    forall id, v :: HasLeafDomain(cache, id) && MeansKeyword(cache, BorderDomain, v) && v != RequiredSame && cache.byLeaf[id].borderDomain != NoId ==>
      v in NamesOf(cache.byLeaf[id], BorderKind)
  }

  // No spine domain is called by the keyword, and a leaf domain only where the leaf itself is.
  lemma KeywordElsewhere(c: Config, read: Leaves, cache: Cache, level: Level, v: Id)
    requires Compiled(c, read, cache) && (level == LeafDomain || level == SpineDomain) && MeansKeyword(cache, level, v)
    ensures v == RequiredSame
  {
    hide Compiled, Clean, Members;
    CompiledTabled(c, read, cache);
    CompiledLaws(c, read, cache);
    var kind := KindOf(level);
    assert Table(cache.byLeaf, cache.byLeaf.Keys, kind, TableOfKind(cache, kind));
    var l :| l in cache.byLeaf && v in NamesOf(cache.byLeaf[l], kind);
    assert DomainOf(cache.byLeaf[l], kind) == RequiredSame;
    if level == LeafDomain { KeywordLeaf(c, read, cache, l, v); }
  }

  lemma KeywordLeaf(c: Config, read: Leaves, cache: Cache, l: string, v: Id)
    requires Compiled(c, read, cache) && l in cache.byLeaf && cache.byLeaf[l].leafDomain == RequiredSame
    requires v in NamesOf(cache.byLeaf[l], LeafKind)
    ensures v == RequiredSame
  {
    hide AllConsistent, Table, Readable, Holds, ScopesLinked, Members, WithDomains;
    CompiledHasDomains(c, read, cache, l);
    var input := Domained(c, cache.mode, read);
    assert InBlock(input, l, cache.byLeaf[l]);
    var x :| NamedBy(input, l, cache.byLeaf[l], x);
    assert x == RequiredSame.name;
    KeywordClean();
    MembersOfClean(x, input[x]);
    OneMember(Members(x, input[x]), x);
  }

  lemma KeywordClean()
    ensures Clean(RequiredSame.name)
  {
    assert RequiredSame.name[0] == 'r' && RequiredSame.name[|RequiredSame.name| - 1] == 'e';
  }

  lemma OneMember(s: set<string>, x: string)
    requires x in s && |s| <= 1
    ensures s == {x}
  {
    if y :| y in s && y != x { TwoElements(x, y, s); }
  }

  // What a leaf with a leaf domain provides it is granted.
  lemma ProvidedIsGranted(cache: Cache, id: string, level: Level, v: Id)
    requires HasLeafDomain(cache, id) && level in DemandLevels && Provides(cache.byLeaf[id], level, v)
    ensures Granted(cache, cache.byLeaf[id], level, v)
  {
    hide NamesOf;
    if v != RequiredSame && level != DataCenter && level != Room {
      assert v in NamesOf(cache.byLeaf[id], KindOf(level));
    }
  }

  lemma GrantedIsProvided(c: Config, read: Leaves, cache: Cache, id: string, level: Level, v: Id)
    requires Compiled(c, read, cache) && BordersSpelled(cache) && KeywordHarmless(cache)
    requires HasLeafDomain(cache, id) && level in DemandLevels && Granted(cache, cache.byLeaf[id], level, v)
    ensures Provides(cache.byLeaf[id], level, v)
  {
    hide Compiled, NamesOf, AnswersTo, MeansKeyword, BordersSpelled, KeywordHarmless;
    if v != RequiredSame && level != DataCenter && level != Room {
      GrantedDomain(c, read, cache, id, level, v);
    }
  }

  lemma GrantedDomain(c: Config, read: Leaves, cache: Cache, id: string, level: Level, v: Id)
    requires Compiled(c, read, cache) && BordersSpelled(cache) && KeywordHarmless(cache) && HasLeafDomain(cache, id)
    requires level == LeafDomain || level == SpineDomain || level == BorderDomain
    requires v != RequiredSame && Granted(cache, cache.byLeaf[id], level, v)
    ensures v in NamesOf(cache.byLeaf[id], KindOf(level))
  {
    hide Compiled, NamesOf, Clean, AliasesSelect, HasDomains, Tabled, Granted, NamedAs, BordersSpelled, KeywordHarmless, BordersTold,
         KindOf, TableOfLevel, MeansKeyword;
    CompiledTabled(c, read, cache);
    CompiledHasDomains(c, read, cache, id);
    CompiledAliasesSelect(c, read, cache, id);
    GrantedIsTabled(cache, id, level, v);
    if MeansKeyword(cache, level, v) && level != BorderDomain {
      KeywordElsewhere(c, read, cache, level, v);
    }
    SelectedIsProvided(cache, id, level, v);
  }

  lemma GrantedIsTabled(cache: Cache, id: string, level: Level, v: Id)
    requires Tabled(cache) && id in cache.byLeaf && (level == LeafDomain || level == SpineDomain || level == BorderDomain)
    requires v != RequiredSame && Granted(cache, cache.byLeaf[id], level, v)
    ensures v in TableOfLevel(cache, level) && NamedAs(cache, cache.byLeaf[id], level, v)
  {
    hide NamesOf;
    assert Table(cache.byLeaf, cache.byLeaf.Keys, KindOf(level), TableOfKind(cache, KindOf(level)));
    TableNames(cache, id, level, v);
  }

  lemma SelectedIsProvided(cache: Cache, id: string, level: Level, v: Id)
    requires HasLeafDomain(cache, id) && BordersSpelled(cache) && KeywordHarmless(cache)
    requires level == LeafDomain || level == SpineDomain || level == BorderDomain
    requires v != RequiredSame && v in TableOfLevel(cache, level) && NamedAs(cache, cache.byLeaf[id], level, v)
    requires MeansKeyword(cache, level, v) ==> level == BorderDomain
    requires AliasesSelect(cache.byLeaf[id], LeafKind, cache.leafAliases) && AliasesSelect(cache.byLeaf[id], SpineKind, cache.spineAliases)
    requires Granted(cache, cache.byLeaf[id], level, v)
    ensures v in NamesOf(cache.byLeaf[id], KindOf(level))
  {
    hide NamesOf, AnswersTo;
  }

  // Trimming that tells the border switches apart is enough for their names.
  lemma ToldIsSpelled(c: Config, read: Leaves, cache: Cache)
    requires Compiled(c, read, cache) && BordersTold(cache.byLeaf)
    ensures BordersSpelled(cache)
  {
    hide Compiled, NamesOf, Clean, BordersTold;
    forall id, v | HasLeafDomain(cache, id) && v in cache.borderAliases && cache.byLeaf[id].borderDomain == cache.borderAliases[v]
      ensures v in NamesOf(cache.byLeaf[id], BorderKind)
    {
      CompiledAliasesSelect(c, read, cache, id);
    }
  }

  // A single name that the table knows resolves.
  lemma OneNameResolves(cache: Cache, v: Id)
    requires v in cache.borderAliases
    ensures Resolution(cache, map[BorderDomain := v]).Some? && map[BorderDomain := v].Keys <= DemandLevels
  {
  }

  lemma SelectingIsSpelled(c: Config, read: Leaves, cache: Cache, id: string, v: Id)
    requires Compiled(c, read, cache) && SelectsProviding(cache) && HasLeafDomain(cache, id) && v in cache.borderAliases && v != RequiredSame
    requires Granted(cache, cache.byLeaf[id], BorderDomain, v)
    ensures v in NamesOf(cache.byLeaf[id], BorderKind)
  {
    hide Compiled, Granted, NamesOf, LeafMatches, Resolution;
    var requested := map[BorderDomain := v];
    OneNameResolves(cache, v);
    LabelsSelectExactly(c, read, cache, requested, id);
    assert BorderDomain in requested;
    assert ProvidesAll(cache.byLeaf[id], requested);
  }

  lemma SpelledSelects(c: Config, read: Leaves, cache: Cache, requested: Constraints, id: string)
    requires Compiled(c, read, cache) && BordersSpelled(cache) && KeywordHarmless(cache) && HasLeafDomain(cache, id)
    requires requested.Keys <= DemandLevels && Resolution(cache, requested).Some?
    ensures LeafMatches(cache.byLeaf[id], Resolution(cache, requested).value) <==> ProvidesAll(cache.byLeaf[id], requested)
  {
    hide Compiled, Granted, Provides, BordersSpelled, KeywordHarmless, LeafMatches, Resolution;
    LabelsSelectExactly(c, read, cache, requested, id);
    forall level | level in requested
      ensures Granted(cache, cache.byLeaf[id], level, requested[level]) <==> Provides(cache.byLeaf[id], level, requested[level])
    {
      if Provides(cache.byLeaf[id], level, requested[level]) { ProvidedIsGranted(cache, id, level, requested[level]); }
      if Granted(cache, cache.byLeaf[id], level, requested[level]) { GrantedIsProvided(c, read, cache, id, level, requested[level]); }
    }
  }

  // Main result: on a compiled topology demands select exactly the leaves that physically provide everything asked
  // for, among those with a leaf domain, if and only if the leaves of a border domain answer to the same names and no
  // border domain that is called by the keyword leaves out a leaf with another one.
  lemma LabelsSelectProvidingLeaves(c: Config, read: Leaves, cache: Cache)
    requires Compiled(c, read, cache)
    ensures SelectsProviding(cache) <==> BordersSpelled(cache) && KeywordHarmless(cache)
    ensures BordersTold(cache.byLeaf) ==> BordersSpelled(cache)
  {
    hide Compiled, Granted, LeafMatches, Resolution, ProvidesAll, BordersTold, NamesOf;
    if BordersTold(cache.byLeaf) { ToldIsSpelled(c, read, cache); }
    if SelectsProviding(cache) {
      forall id, v | HasLeafDomain(cache, id) && v in cache.borderAliases && v != RequiredSame
                     && (cache.byLeaf[id].borderDomain == cache.borderAliases[v]
                         || (cache.borderAliases[v] == RequiredSame && cache.byLeaf[id].borderDomain != NoId))
        ensures v in NamesOf(cache.byLeaf[id], BorderKind)
      {
        BorderGranted(c, read, cache, id, v);
        SelectingIsSpelled(c, read, cache, id, v);
      }
    }
    if BordersSpelled(cache) && KeywordHarmless(cache) {
      hide BordersSpelled, KeywordHarmless;
      forall requested: Constraints, id: string | requested.Keys <= DemandLevels && Resolution(cache, requested).Some? && HasLeafDomain(cache, id)
        ensures LeafMatches(cache.byLeaf[id], Resolution(cache, requested).value) <==> ProvidesAll(cache.byLeaf[id], requested)
      {
        SpelledSelects(c, read, cache, requested, id);
      }
    }
  }

  lemma BorderGranted(c: Config, read: Leaves, cache: Cache, id: string, v: Id)
    requires Compiled(c, read, cache) && id in cache.byLeaf && v in cache.borderAliases && v != RequiredSame
    requires cache.byLeaf[id].borderDomain == cache.borderAliases[v]
             || (cache.borderAliases[v] == RequiredSame && cache.byLeaf[id].borderDomain != NoId)
    ensures Granted(cache, cache.byLeaf[id], BorderDomain, v)
  {
    hide Compiled, AnswersTo;
    CompiledTabled(c, read, cache);
    TableNames(cache, id, BorderDomain, v);
  }

  // ---- A border domain called by the keyword ----

  // Two leaves on one border switch each; the first one's border domain is configured under the keyword.
  function Keyworded(scope: string, a: string, b: string, s: string, t: string): Pair {
    Pair(scope, a, b, {s}, {t}, RequiredSame.name, {s})
  }

  // The failing input: it builds, trimming tells its border switches apart, and asking for switch s also selects
  // leaf b, which is on switch t only.
  lemma KeywordSelectsTooMuch(scope: string, a: string, b: string, s: string, t: string) returns (c: Config, read: Leaves, cache: Cache)
    requires scope != "" && Clean(a) && Clean(b) && a != b && Clean(s) && Clean(t) && s != t && Name(s) != RequiredSame && Name(t) != RequiredSame
    ensures c == PairConfig(Keyworded(scope, a, b, s, t)) && Builds(c, read) && Compiled(c, read, cache) && BordersTold(cache.byLeaf)
    ensures b in cache.byLeaf && s !in cache.byLeaf[b].borders && Resolution(cache, map[BorderDomain := Name(s)]).Some?
    ensures LeafMatches(cache.byLeaf[b], Resolution(cache, map[BorderDomain := Name(s)]).value)
    ensures !Provides(cache.byLeaf[b], BorderDomain, Name(s))
  {
    hide Builds, Compiled, Clean, LeafMatches, BordersTold, Granted;
    var e := Keyworded(scope, a, b, s, t);
    c, read := PairConfig(e), PairRead(e);
    KeywordBuilds(e, s, t);
    BuildsHasCache(c, read);
    cache :| Compiled(c, read, cache);
    PairBorders(e, cache);
    PairTold(cache.byLeaf, e, s, t);
    KeywordBorders(e, s, t, cache);
    OneNameResolves(cache, Name(s));
    var requested := map[BorderDomain := Name(s)];
    LabelsSelectExactly(c, read, cache, requested, b);
    BorderGranted(c, read, cache, b, Name(s));
  }

  lemma PairTold(byLeaf: Leaves, e: Pair, s: string, t: string)
    requires byLeaf.Keys == {e.a, e.b} && byLeaf[e.a].borders == {s} && byLeaf[e.b].borders == {t} && Clean(s) && Clean(t)
    ensures BordersTold(byLeaf)
  {
    TrimIdempotent(s);
    TrimIdempotent(t);
    assert forall x :: x in AllBorders(byLeaf) ==> x == s || x == t;
  }

  predicate IsKeyworded(e: Pair, s: string, t: string) {
    && e == Keyworded(e.scope, e.a, e.b, s, t) && e.Proper()
    && Clean(s) && Clean(t) && s != t && Name(s) != RequiredSame && Name(t) != RequiredSame
  }

  lemma KeywordDomains(e: Pair, s: string, t: string)
    requires IsKeyworded(e, s, t)
    ensures TopologyCache.BorderDomain(PairConfig(e), PairLeaf(e, e.a, {s})) == RequiredSame
    ensures TopologyCache.BorderDomain(PairConfig(e), PairLeaf(e, e.b, {t})) == BordersOf({t})
  {
    hide TopologyCache.BorderDomain, PairConfig, PairLeaf;
    UniqueOfClean({s});
    UniqueOfClean({t});
    assert s in {s} && s !in {t};
    PairBorder(e, e.a, {s});
    PairBorder(e, e.b, {t});
  }

  lemma KeywordBuilds(e: Pair, s: string, t: string)
    requires e == Keyworded(e.scope, e.a, e.b, s, t) && e.scope != "" && Clean(e.a) && Clean(e.b) && e.a != e.b
    requires Clean(s) && Clean(t) && s != t && Name(s) != RequiredSame && Name(t) != RequiredSame
    ensures IsKeyworded(e, s, t) && Builds(PairConfig(e), PairRead(e))
  {
    hide Builds, TopologyCache.BorderDomain, Clean;
    KeywordDomains(e, s, t);
    PairBuilds(e, RequiredSame, BordersOf({t}));
  }

  lemma KeywordBorders(e: Pair, s: string, t: string, cache: Cache)
    requires IsKeyworded(e, s, t) && Compiled(PairConfig(e), PairRead(e), cache)
    ensures cache.byLeaf.Keys == {e.a, e.b}
    ensures Name(s) in cache.borderAliases && cache.borderAliases[Name(s)] == RequiredSame
    ensures cache.byLeaf[e.b].borderDomain == BordersOf({t}) && Name(s) !in NamesOf(cache.byLeaf[e.b], BorderKind)
  {
    hide Compiled, TopologyCache.BorderDomain;
    var c, read := PairConfig(e), PairRead(e);
    KeywordDomains(e, s, t);
    PairBorders(e, cache);
    CompiledField(c, read, cache, e.a);
    CompiledField(c, read, cache, e.b);
    BorderTable(c, read, cache);
    assert Name(s) in NamesOf(cache.byLeaf[e.a], BorderKind);
  }
}
