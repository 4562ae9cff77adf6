/**
What the topology labels of a demand select: ResolveDemandTopologyLabels in algorithm_server/go/topology/constraints.go
from label keys and texts to leaves, with nothing in between.
*/
module DemandLabels {
  import opened Wrappers
  import opened Text
  import opened LeafDomains
  import opened TopologySource
  import opened TopologyCache
  import opened TopologyResolution

  // The label asks for this name: its trimmed text, which is not blank.
  predicate Asks(labels: map<LabelKey, LabelValue>, key: LabelKey, v: Id) {
    && key in labels
    && match labels[key]
       case Plain(text) => Trim(text) != "" && v == Name(Trim(text))
       case DomainText(id) => id != NoId && v == id
       case NotText => false
  }

  // A switch or domain name of some leaf of the kind that the key speaks of; a scope of the configuration.
  ghost predicate Known(c: Config, byLeaf: Leaves, key: LabelKey, v: Id) {
    match key
    case DataCenterKey => v.Name? && v.name in c.dataCenters
    case RoomKey => v.Name? && v.name in c.rooms
    case SpineSwitchKey => exists l :: l in byLeaf && OnSpine(byLeaf[l], v)
    case BorderSwitchKey => exists l :: l in byLeaf && OnBorder(byLeaf[l], v)
    case LeafSwitchKey => exists l :: l in byLeaf && InBlockOf(byLeaf[l], v)
    case OtherKey(_) => false
  }

  // The leaf is wired to the switch, or in the domain, of this name.
  predicate OnSpine(leaf: Leaf, v: Id) {
    leaf.spineDomain != NoId && (v == leaf.spineDomain || (v.Name? && v.name in leaf.spines))
  }

  predicate OnBorder(leaf: Leaf, v: Id) {
    leaf.borderDomain != NoId && (v == leaf.borderDomain || (v.Name? && v.name in leaf.borders))
  }

  // The leaf is of this leaf domain, or in a block with the leaf of this name.
  predicate InBlockOf(leaf: Leaf, v: Id) {
    v == leaf.leafDomain || (v.Name? && v.name in leaf.leafDomainLeaves)
  }

  // Every label is one that is known, with a text, and that asks for the keyword or for something that exists.
  ghost predicate AllKnown(c: Config, byLeaf: Leaves, labels: map<LabelKey, LabelValue>) {
    forall key :: key in labels ==> !key.OtherKey? && exists v :: Asks(labels, key, v) && (v == RequiredSame || Known(c, byLeaf, key, v))
  }

  // The leaf physically provides what a label asks for.
  predicate Serves(leaf: Leaf, key: LabelKey, v: Id) {
    || v == RequiredSame
    || match key
       case DataCenterKey => v == IdText(leaf.dataCenter)
       case RoomKey => v == IdText(leaf.room)
       case SpineSwitchKey => OnSpine(leaf, v)
       case BorderSwitchKey => OnBorder(leaf, v)
       case LeafSwitchKey => InBlockOf(leaf, v)
       case OtherKey(_) => true
  }

  ghost predicate ServesAll(leaf: Leaf, labels: map<LabelKey, LabelValue>) {
    forall key, v :: Asks(labels, key, v) ==> Serves(leaf, key, v)
  }

  // ---- Labels and levels ----

  lemma AskedIsRequested(labels: map<LabelKey, LabelValue>, key: LabelKey, v: Id)
    requires key in labels && !key.OtherKey?
    ensures Asks(labels, key, v) ==> LevelOf(key) in Requested(labels) && Requested(labels)[LevelOf(key)] == v
    ensures AcceptableLabel(key, labels[key]) <==> exists w :: Asks(labels, key, w)
  {
    RequestedAt(labels, key);
    if AcceptableLabel(key, labels[key]) {
      assert Asks(labels, key, ValueOf(labels[key]));
    }
  }

  lemma RequestedAt(labels: map<LabelKey, LabelValue>, key: LabelKey)
    requires key in labels && !key.OtherKey?
    ensures LevelOf(key) in Requested(labels) && Requested(labels)[LevelOf(key)] == ValueOf(labels[key])
    ensures Requested(labels).Keys <= DemandLevels
  {
  }

  lemma RequestedFrom(labels: map<LabelKey, LabelValue>, level: Level) returns (key: LabelKey)
    requires level in Requested(labels)
    ensures key in labels && !key.OtherKey? && LevelOf(key) == level && Requested(labels)[level] == ValueOf(labels[key])
  {
    key :| key in labels.Keys && !key.OtherKey? && LevelOf(key) == level;
  }

  // What a key asks of a leaf is what its level asks.
  lemma ServesIsProvides(leaf: Leaf, key: LabelKey, v: Id)
    requires !key.OtherKey?
    ensures Serves(leaf, key, v) <==> Provides(leaf, LevelOf(key), v)
  {
  }

  lemma ServesAllExactly(leaf: Leaf, labels: map<LabelKey, LabelValue>)
    requires AllAcceptable(labels)
    ensures ServesAll(leaf, labels) <==> ProvidesAll(leaf, Requested(labels))
  {
    hide Serves, Provides, ValueOf, LevelOf;
    if ServesAll(leaf, labels) {
      forall level | level in Requested(labels) ensures Provides(leaf, level, Requested(labels)[level]) {
        var key := RequestedFrom(labels, level);
        LabelServed(leaf, labels, key);
      }
    }
    if ProvidesAll(leaf, Requested(labels)) {
      forall key, v | Asks(labels, key, v) ensures Serves(leaf, key, v) {
        assert AcceptableLabel(key, labels[key]);
        AskedIsRequested(labels, key, v);
        ServesIsProvides(leaf, key, v);
      }
    }
  }

  lemma LabelServed(leaf: Leaf, labels: map<LabelKey, LabelValue>, key: LabelKey)
    requires ServesAll(leaf, labels) && key in labels && AcceptableLabel(key, labels[key])
    ensures Provides(leaf, LevelOf(key), ValueOf(labels[key]))
  {
    assert Asks(labels, key, ValueOf(labels[key]));
    ServesIsProvides(leaf, key, ValueOf(labels[key]));
  }

  // ---- When labels resolve ----

  // What the resolver knows at a level.
  predicate Resolvable(cache: Cache, level: Level, v: Id) {
    || v == RequiredSame
    || match level
       case DataCenter => v.Name? && v.name in cache.dataCenters
       case Room => v.Name? && v.name in cache.rooms
       case LeafDomain => v in cache.leafAliases
       case SpineDomain => v in cache.spineAliases
       case BorderDomain => v in cache.borderAliases
       case _ => true
  }

  lemma ResolutionSucceeds(cache: Cache, requested: Constraints)
    requires requested.Keys <= DemandLevels
    ensures Resolution(cache, requested).Some? <==> forall level :: level in requested ==> Resolvable(cache, level, requested[level])
  {
    if Resolution(cache, requested).Some? {
      forall level | level in requested ensures Resolvable(cache, level, requested[level]) {
        match level
        case DataCenter =>
        case Room =>
        case LeafDomain =>
        case SpineDomain =>
        case BorderDomain =>
        case _ => assert level in DemandLevels;
      }
    }
  }

  lemma KnownExactly(c: Config, read: Leaves, cache: Cache, key: LabelKey, v: Id)
    requires Compiled(c, read, cache) && !key.OtherKey? && v != RequiredSame
    ensures Known(c, cache.byLeaf, key, v) <==> Resolvable(cache, LevelOf(key), v)
  {
    hide Compiled, Table;
    CacheScopes(c, read, cache);
    LeafTable(c, read, cache);
    BorderTable(c, read, cache);
    match key
    case DataCenterKey =>
    case RoomKey =>
    case SpineSwitchKey => TableKnows(cache.byLeaf, SpineKind, cache.spineAliases, v);
    case BorderSwitchKey => TableKnows(cache.byLeaf, BorderKind, cache.borderAliases, v);
    case LeafSwitchKey => TableKnows(cache.byLeaf, LeafKind, cache.leafAliases, v);
  }

  lemma CacheScopes(c: Config, read: Leaves, cache: Cache)
    requires Compiled(c, read, cache)
    ensures cache.dataCenters == c.dataCenters.Keys && cache.rooms == c.rooms.Keys
  {
    hide AllConsistent, Table, Readable, Holds, Blocked;
  }

  predicate Answering(leaf: Leaf, kind: Kind, v: Id) {
    match kind
    case LeafKind => InBlockOf(leaf, v)
    case SpineKind => OnSpine(leaf, v)
    case BorderKind => OnBorder(leaf, v)
  }

  lemma TableKnows(byLeaf: Leaves, kind: Kind, aliases: Aliases, v: Id)
    requires Table(byLeaf, byLeaf.Keys, kind, aliases)
    ensures v in aliases <==> exists l :: l in byLeaf && Answering(byLeaf[l], kind, v)
  {
    forall leaf: Leaf ensures Answering(leaf, kind, v) <==> v in NamesOf(leaf, kind) {
      AnsweringExactly(leaf, kind, v);
    }
    hide Answering, NamesOf;
  }

  lemma AnsweringExactly(leaf: Leaf, kind: Kind, v: Id)
    ensures Answering(leaf, kind, v) <==> v in NamesOf(leaf, kind)
  {
  }

  lemma AllKnownExactly(c: Config, read: Leaves, cache: Cache, labels: map<LabelKey, LabelValue>)
    requires Compiled(c, read, cache)
    ensures AllKnown(c, cache.byLeaf, labels) <==> AllAcceptable(labels) && Resolution(cache, Requested(labels)).Some?
  {
    hide Compiled, Known, Resolvable, Resolution, Asks, ValueOf, LevelOf;
    if AllAcceptable(labels) {
      RequestedLevels(labels);
      ResolutionSucceeds(cache, Requested(labels));
      forall key | key in labels
        ensures (exists v :: Asks(labels, key, v) && (v == RequiredSame || Known(c, cache.byLeaf, key, v)))
                <==> Resolvable(cache, LevelOf(key), ValueOf(labels[key]))
      {
        assert AcceptableLabel(key, labels[key]);
        LabelKnown(c, read, cache, labels, key);
      }
      forall level | level in Requested(labels)
        ensures exists key :: key in labels && LevelOf(key) == level && Requested(labels)[level] == ValueOf(labels[key])
      {
        var key := RequestedFrom(labels, level);
      }
      forall key | key in labels ensures LevelOf(key) in Requested(labels) && Requested(labels)[LevelOf(key)] == ValueOf(labels[key]) {
        assert AcceptableLabel(key, labels[key]);
        RequestedAt(labels, key);
      }
    } else {
      var key :| key in labels && !AcceptableLabel(key, labels[key]);
      if !key.OtherKey? { AskedIsRequested(labels, key, NoId); }
    }
  }

  lemma RequestedLevels(labels: map<LabelKey, LabelValue>)
    ensures Requested(labels).Keys <= DemandLevels
  {
  }

  lemma LabelKnown(c: Config, read: Leaves, cache: Cache, labels: map<LabelKey, LabelValue>, key: LabelKey)
    requires Compiled(c, read, cache) && key in labels && AcceptableLabel(key, labels[key])
    ensures (exists v :: Asks(labels, key, v) && (v == RequiredSame || Known(c, cache.byLeaf, key, v)))
            <==> Resolvable(cache, LevelOf(key), ValueOf(labels[key]))
  {
    hide Compiled, Known;
    var value := ValueOf(labels[key]);
    assert Asks(labels, key, value) && forall v :: Asks(labels, key, v) ==> v == value;
    if value != RequiredSame { KnownExactly(c, read, cache, key, value); }
  }

  // Main result: what a demand's labels select, from keys and texts to leaves. Where demands select providing leaves
  // at all (LabelsSelectProvidingLeaves says when), a leaf with a leaf domain meets the resolved constraints exactly
  // when it serves every label: the spine-switch label by its spines, the border-switch label by its borders, and so on.
  lemma LabelsSelectServingLeaves(cache: Cache, labels: map<LabelKey, LabelValue>, result: Option<Constraints>, id: string)
    requires LabelsResolve(cache, labels, result) && result.Some? && SelectsProviding(cache) && HasLeafDomain(cache, id)
    ensures LeafMatches(cache.byLeaf[id], result.value) <==> ServesAll(cache.byLeaf[id], labels)
  {
    hide LeafMatches, ProvidesAll, ServesAll, Resolution;
    RequestedLevels(labels);
    ServesAllExactly(cache.byLeaf[id], labels);
    assert result == Resolution(cache, Requested(labels));
  }

  // Main result: labels are accepted exactly when each has a known key and a text that asks for the keyword or for a
  // scope, switch or domain that exists, and some leaf meets the constraints.
  lemma LabelsResolveExactly(c: Config, read: Leaves, cache: Cache, labels: map<LabelKey, LabelValue>, result: Option<Constraints>)
    requires Compiled(c, read, cache) && LabelsResolve(cache, labels, result)
    ensures result.Some? ==> AllKnown(c, cache.byLeaf, labels) && exists id :: id in cache.byLeaf && LeafMatches(cache.byLeaf[id], result.value)
    ensures AllKnown(c, cache.byLeaf, labels) && SelectsProviding(cache) && (exists id :: HasLeafDomain(cache, id) && ServesAll(cache.byLeaf[id], labels)) ==>
              result.Some?
    ensures SelectsProviding(cache) && (forall id :: id in cache.byLeaf ==> HasLeafDomain(cache, id)) ==>
              (result.Some? <==> AllKnown(c, cache.byLeaf, labels) && exists id :: id in cache.byLeaf && ServesAll(cache.byLeaf[id], labels))
  {
    hide Compiled, LeafMatches, ServesAll, ProvidesAll, Resolution, AllKnown;
    AllKnownExactly(c, read, cache, labels);
    RequestedLevels(labels);
    if AllKnown(c, cache.byLeaf, labels) && SelectsProviding(cache) {
      forall id | HasLeafDomain(cache, id)
        ensures LeafMatches(cache.byLeaf[id], Resolution(cache, Requested(labels)).value) <==> ServesAll(cache.byLeaf[id], labels)
      {
        ServesAllExactly(cache.byLeaf[id], labels);
      }
    }
  }
}
