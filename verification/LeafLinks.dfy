/**
From LLDP neighbours to the leaf facts published on a Node: leafChassisIdentity and distinctLeafCount in
topology_agent/lldp.go, buildLeafLinks in topology_agent/agent.go, and Normalize with the leaf-count label in
topology_agent/pkg/topologyfacts/facts.go.
*/
module LeafLinks {
  import opened Wrappers

  datatype Neighbor = Neighbor(iface: string, localHost: bool, chassisSubtype: string, chassisId: string, portId: string, systemName: string)
  datatype Selection = Selection(bondName: string, bondMode: string, active: bool)
  datatype Link = Link(bondName: string, bondMode: string, iface: string, leaf: string, chassisId: string, chassisSubtype: string, port: string, active: bool)

  // The text functions used: strings.TrimSpace, strings.ToLower and strings.EqualFold.
  datatype Texts = Texts(trim: string -> string, lower: string -> string, same: (string, string) -> bool)

  // Trimming what is trimmed changes nothing.
  ghost predicate Lawful(texts: Texts) {
    forall s :: texts.trim(texts.trim(s)) == texts.trim(s)
  }

  // A non-empty text that trimming leaves alone.
  predicate Clean(texts: Texts, s: string) {
    s != "" && texts.trim(s) == s
  }

  const NUL: char := '\0'

  // ---- Which chassis a neighbour is ----

  // strings.NewReplacer(":", "", "-", "", ".", "")
  function Strip(s: string): string {
    if s == "" then "" else (if s[0] == ':' || s[0] == '-' || s[0] == '.' then "" else [s[0]]) + Strip(s[1..])
  }

  function Chassis(texts: Texts, subtype: string, id: string): string {
    var kind, raw := texts.lower(texts.trim(subtype)), texts.lower(texts.trim(id));
    var identifier := if kind == "mac-address" then Strip(raw) else raw;
    if identifier == "" then "" else kind + [NUL] + identifier
  }

  // ---- When two neighbours have one chassis ----

  predicate IsSeparator(c: char) {
    c in {':', '-', '.'}
  }

  // Equal but for separators.
  predicate Alike(s: string, t: string)
    decreases |s| + |t|
  {
    if s != "" && IsSeparator(s[0]) then Alike(s[1..], t)
    else if t != "" && IsSeparator(t[0]) then Alike(s, t[1..])
    else if s == "" || t == "" then s == t
    else s[0] == t[0] && Alike(s[1..], t[1..])
  }

  lemma {:induction false} AlikeExactly(s: string, t: string)
    ensures Alike(s, t) <==> Strip(s) == Strip(t)
    decreases |s| + |t|
  {
    if s != "" && IsSeparator(s[0]) {
      AlikeExactly(s[1..], t);
      assert Strip(s) == Strip(s[1..]);
    } else if t != "" && IsSeparator(t[0]) {
      AlikeExactly(s, t[1..]);
      assert Strip(t) == Strip(t[1..]);
    } else if s != "" && t != "" {
      AlikeExactly(s[1..], t[1..]);
      assert Strip(s)[1..] == Strip(s[1..]) && Strip(t)[1..] == Strip(t[1..]);
    }
  }

  lemma {:induction false} StripsToNothing(s: string)
    ensures Strip(s) == "" <==> forall c :: c in s ==> IsSeparator(c)
  {
    if s != "" {
      StripsToNothing(s[1..]);
      assert forall c :: c in s <==> c == s[0] || c in s[1..];
      if IsSeparator(s[0]) {
        assert Strip(s) == Strip(s[1..]);
      } else {
        assert s[0] in s && |Strip(s)| > 0;
      }
    }
  }

  // The chassis id that is left to compare: some character of it counts.
  predicate Identifies(texts: Texts, subtype: string, id: string) {
    if texts.lower(texts.trim(subtype)) == "mac-address" then exists c :: c in texts.lower(texts.trim(id)) && !IsSeparator(c)
    else texts.lower(texts.trim(id)) != ""
  }

  predicate SameId(texts: Texts, subtype: string, id: string, other: string) {
    if texts.lower(texts.trim(subtype)) == "mac-address" then Alike(texts.lower(texts.trim(id)), texts.lower(texts.trim(other)))
    else texts.lower(texts.trim(id)) == texts.lower(texts.trim(other))
  }

  lemma IdentifiesExactly(texts: Texts, subtype: string, id: string)
    ensures Chassis(texts, subtype, id) != "" <==> Identifies(texts, subtype, id)
  {
    StripsToNothing(texts.lower(texts.trim(id)));
  }

  // Main result: neighbours whose ids leave something to compare have one chassis exactly when the subtype is the same
  // up to case and the id too, in a MAC also up to separators. (Subtypes without NUL, as the parser names them.)
  lemma SameChassisExactly(texts: Texts, a: Neighbor, b: Neighbor)
    requires NoNul(texts.lower(texts.trim(a.chassisSubtype))) && NoNul(texts.lower(texts.trim(b.chassisSubtype)))
    requires Identifies(texts, a.chassisSubtype, a.chassisId) && Identifies(texts, b.chassisSubtype, b.chassisId)
    ensures ChassisOf(texts, a) == ChassisOf(texts, b) <==>
            && texts.lower(texts.trim(a.chassisSubtype)) == texts.lower(texts.trim(b.chassisSubtype))
            && SameId(texts, a.chassisSubtype, a.chassisId, b.chassisId)
  {
    hide Strip, Alike;
    IdentifiesExactly(texts, a.chassisSubtype, a.chassisId);
    IdentifiesExactly(texts, b.chassisSubtype, b.chassisId);
    var kindA, kindB := texts.lower(texts.trim(a.chassisSubtype)), texts.lower(texts.trim(b.chassisSubtype));
    var rawA, rawB := texts.lower(texts.trim(a.chassisId)), texts.lower(texts.trim(b.chassisId));
    var idA, idB := if kindA == "mac-address" then Strip(rawA) else rawA, if kindB == "mac-address" then Strip(rawB) else rawB;
    AlikeExactly(rawA, rawB);
    if kindA + [NUL] + idA == kindB + [NUL] + idB {
      FirstPart(kindA, idA, kindB, idB);
    }
  }

  function ChassisOf(texts: Texts, n: Neighbor): string {
    Chassis(texts, n.chassisSubtype, n.chassisId)
  }

  function External(neighbors: seq<Neighbor>): seq<Neighbor> {
    if neighbors == [] then []
    else External(neighbors[..|neighbors| - 1]) + if neighbors[|neighbors| - 1].localHost then [] else [neighbors[|neighbors| - 1]]
  }

  function ChassisSet(texts: Texts, neighbors: seq<Neighbor>): set<string> {
    AllChassis(texts, External(neighbors)) - {""}
  }

  // The host's own frames are left out, and nothing else.
  lemma {:induction false} ExternalExactly(neighbors: seq<Neighbor>)
    ensures forall n :: n in External(neighbors) <==> n in neighbors && !n.localHost
  {
    if neighbors != [] {
      var front, last := neighbors[..|neighbors| - 1], neighbors[|neighbors| - 1];
      ExternalExactly(front);
      assert forall n :: n in neighbors <==> n in front || n == last;
    }
  }

  lemma ExternalStep(neighbors: seq<Neighbor>, i: nat)
    requires i < |neighbors|
    ensures External(neighbors[..i + 1]) == External(neighbors[..i]) + if neighbors[i].localHost then [] else [neighbors[i]]
  {
    assert neighbors[..i + 1][..i] == neighbors[..i];
  }

  method DistinctLeafCount(texts: Texts, neighbors: seq<Neighbor>) returns (count: nat)
    ensures count == |ChassisSet(texts, neighbors)|
  {
    var identities: set<string> := {};
    for i := 0 to |neighbors|
      invariant identities == ChassisSet(texts, neighbors[..i])
    {
      ExternalStep(neighbors, i);
      if neighbors[i].localHost {
        continue;
      }
      var identity := ChassisOf(texts, neighbors[i]);
      ChassisAdded(texts, External(neighbors[..i]), neighbors[i]);
      if identity != "" {
        identities := identities + {identity};
      }
    }
    assert neighbors[..|neighbors|] == neighbors;
    count := |identities|;
  }

  lemma ChassisAdded(texts: Texts, external: seq<Neighbor>, n: Neighbor)
    ensures AllChassis(texts, external + [n]) == AllChassis(texts, external) + {ChassisOf(texts, n)}
  {
    assert forall m :: m in external + [n] <==> m in external || m == n;
  }

  // ---- Naming the chassis ----

  datatype Named = Named(id: string, fromSystemName: bool)
  type Naming = map<string, Named>

  function Before(naming: Naming, chassis: string): Named {
    if chassis in naming then naming[chassis] else Named("", false)
  }

  // The name after one more neighbour of the chassis: its last system name, else its first chassis id. None: it
  // advertised two names, or none can be found.
  function NameNext(texts: Texts, before: Named, n: Neighbor): Option<Named> {
    var systemName := texts.trim(n.systemName);
    if systemName != "" then
      (if before.fromSystemName && !texts.same(before.id, systemName) then None else Some(Named(systemName, true)))
    else if before.id != "" then Some(before)
    else if texts.trim(n.chassisId) != "" then Some(Named(texts.trim(n.chassisId), before.fromSystemName))
    else None
  }

  function NamedAfter(texts: Texts, selections: map<string, Selection>, naming: Naming, n: Neighbor): Option<Naming> {
    var chassis := ChassisOf(texts, n);
    if n.iface !in selections || chassis == "" then None
    else
      var next := NameNext(texts, Before(naming, chassis), n);
      if next.None? then None else Some(naming[chassis := next.value])
  }

  // The names of the chassis of these external neighbours, all on selected interfaces.
  function Names(texts: Texts, selections: map<string, Selection>, external: seq<Neighbor>): Option<Naming> {
    if external == [] then Some(map[])
    else
      var before := Names(texts, selections, external[..|external| - 1]);
      if before.None? then None else NamedAfter(texts, selections, before.value, external[|external| - 1])
  }

  // No two chassis bear one name up to case.
  predicate Unambiguous(texts: Texts, naming: Naming) {
    forall a, b :: a in naming && b in naming && texts.lower(naming[a].id) == texts.lower(naming[b].id) ==> a == b
  }

  function LinkOf(texts: Texts, selections: map<string, Selection>, naming: Naming, n: Neighbor): Link
    requires n.iface in selections && ChassisOf(texts, n) in naming
  {
    var s := selections[n.iface];
    Link(s.bondName, if s.bondMode == "" then "direct" else s.bondMode, n.iface, naming[ChassisOf(texts, n)].id,
         n.chassisId, n.chassisSubtype, n.portId, s.active)
  }

  ghost predicate Linked(texts: Texts, selections: map<string, Selection>, naming: Naming, external: seq<Neighbor>, links: seq<Link>) {
    |links| == |external| && forall i :: 0 <= i < |external| ==>
      external[i].iface in selections && ChassisOf(texts, external[i]) in naming && links[i] == LinkOf(texts, selections, naming, external[i])
  }

  lemma {:induction false} PrefixNames(texts: Texts, selections: map<string, Selection>, external: seq<Neighbor>, i: nat)
    requires i <= |external| && Names(texts, selections, external[..i]).None?
    ensures Names(texts, selections, external).None?
    decreases |external| - i
  {
    if i == |external| {
      assert external[..i] == external;
    } else {
      assert external[..i + 1][..i] == external[..i];
      PrefixNames(texts, selections, external, i + 1);
    }
  }

  function AllChassis(texts: Texts, external: seq<Neighbor>): set<string> {
    set n | n in external :: ChassisOf(texts, n)
  }

  // What naming provides: every chassis, and nothing but chassis, each with a trimmed name.
  ghost predicate NamesAll(texts: Texts, selections: map<string, Selection>, external: seq<Neighbor>, naming: Naming) {
    && naming.Keys == AllChassis(texts, external) && "" !in naming
    && (forall i :: 0 <= i < |external| ==> external[i].iface in selections && ChassisOf(texts, external[i]) in naming)
    && (forall chassis :: chassis in naming ==> Clean(texts, naming[chassis].id))
  }

  lemma NameIsClean(texts: Texts, before: Named, n: Neighbor)
    requires Lawful(texts) && (before.id == "" || Clean(texts, before.id))
    ensures NameNext(texts, before, n).Some? ==> Clean(texts, NameNext(texts, before, n).value.id)
  {
  }

  lemma NamesAllNext(texts: Texts, selections: map<string, Selection>, front: seq<Neighbor>, n: Neighbor, naming: Naming, next: Named)
    requires NamesAll(texts, selections, front, naming) && n.iface in selections && ChassisOf(texts, n) != "" && Clean(texts, next.id)
    ensures NamesAll(texts, selections, front + [n], naming[ChassisOf(texts, n) := next])
  {
    ChassisAdded(texts, front, n);
  }

  lemma NamesAllAfter(texts: Texts, selections: map<string, Selection>, front: seq<Neighbor>, n: Neighbor, naming: Naming, next: Option<Naming>)
    requires Lawful(texts) && NamesAll(texts, selections, front, naming)
    requires next == NamedAfter(texts, selections, naming, n) && next.Some?
    ensures NamesAll(texts, selections, front + [n], next.value)
  {
    var before := Before(naming, ChassisOf(texts, n));
    NameIsClean(texts, before, n);
    NamesAllNext(texts, selections, front, n, naming, NameNext(texts, before, n).value);
  }

  lemma NoNames(texts: Texts, selections: map<string, Selection>)
    ensures NamesAll(texts, selections, [], map[])
  {
  }

  lemma {:induction false} NamesExactly(texts: Texts, selections: map<string, Selection>, external: seq<Neighbor>)
    requires Lawful(texts) && Names(texts, selections, external).Some?
    ensures NamesAll(texts, selections, external, Names(texts, selections, external).value)
  {
    hide NamedAfter, NamesAll, AllChassis;
    if external == [] {
      NoNames(texts, selections);
    } else {
      var front, n := external[..|external| - 1], external[|external| - 1];
      NamesExactly(texts, selections, front);
      NamesAllAfter(texts, selections, front, n, Names(texts, selections, front).value, Names(texts, selections, external));
      assert external == front + [n];
    }
  }

  // ---- What the names are ----

  predicate Advertises(texts: Texts, n: Neighbor, chassis: string) {
    ChassisOf(texts, n) == chassis && texts.trim(n.systemName) != ""
  }

  // The system name that the chassis advertised last, and the chassis id by which it was first met.
  function LastSystemName(texts: Texts, external: seq<Neighbor>, chassis: string): (name: Option<string>)
    ensures name.Some? ==> name.value != ""
  {
    if external == [] then None
    else
      var n := external[|external| - 1];
      if Advertises(texts, n, chassis) then Some(texts.trim(n.systemName)) else LastSystemName(texts, external[..|external| - 1], chassis)
  }

  function FirstId(texts: Texts, external: seq<Neighbor>, chassis: string): Option<string> {
    if external == [] then None
    else if ChassisOf(texts, external[0]) == chassis then Some(texts.trim(external[0].chassisId))
    else FirstId(texts, external[1..], chassis)
  }

  lemma {:induction false} FirstIdNext(texts: Texts, front: seq<Neighbor>, n: Neighbor, chassis: string)
    ensures FirstId(texts, front + [n], chassis) ==
            if FirstId(texts, front, chassis).Some? then FirstId(texts, front, chassis)
            else if ChassisOf(texts, n) == chassis then Some(texts.trim(n.chassisId)) else None
  {
    hide ChassisOf;
    if front == [] {
      assert front + [n] == [n] && [n][1..] == [];
    } else {
      assert (front + [n])[1..] == front[1..] + [n];
      FirstIdNext(texts, front[1..], n, chassis);
    }
  }

  // The name the chassis should have.
  function NameFor(texts: Texts, external: seq<Neighbor>, chassis: string): Named {
    var name, id := LastSystemName(texts, external, chassis), FirstId(texts, external, chassis);
    if name.Some? then Named(name.value, true) else Named(if id.Some? then id.value else "", false)
  }

  lemma NameForNext(texts: Texts, front: seq<Neighbor>, n: Neighbor, chassis: string)
    requires FirstId(texts, front, chassis).Some? ==> NameFor(texts, front, chassis).id != ""
    requires FirstId(texts, front, chassis).None? ==> LastSystemName(texts, front, chassis).None?
    requires ChassisOf(texts, n) == chassis && NameNext(texts, NameFor(texts, front, chassis), n).Some?
    ensures NameFor(texts, front + [n], chassis) == NameNext(texts, NameFor(texts, front, chassis), n).value
  {
    hide ChassisOf;
    LastNameNext(texts, front, n, chassis);
    FirstIdNext(texts, front, n, chassis);
    hide LastSystemName, FirstId;
  }

  lemma LastNameNext(texts: Texts, front: seq<Neighbor>, n: Neighbor, chassis: string)
    ensures LastSystemName(texts, front + [n], chassis) ==
            if Advertises(texts, n, chassis) then Some(texts.trim(n.systemName)) else LastSystemName(texts, front, chassis)
  {
    assert (front + [n])[..|front|] == front;
  }

  // The neighbour can be named after those in front of it: it is on a selected interface, its chassis is known, and it
  // advertises the system name that its chassis advertised last, or any if that advertised none; without one, its
  // chassis has a name or an id.
  predicate Nameable(texts: Texts, selections: map<string, Selection>, front: seq<Neighbor>, n: Neighbor) {
    var chassis, systemName := ChassisOf(texts, n), texts.trim(n.systemName);
    var last := LastSystemName(texts, front, chassis);
    && n.iface in selections && chassis != ""
    && if systemName != "" then last.Some? ==> texts.same(last.value, systemName)
       else NameFor(texts, front, chassis).id != "" || texts.trim(n.chassisId) != ""
  }

  ghost predicate AllNameable(texts: Texts, selections: map<string, Selection>, external: seq<Neighbor>) {
    forall i :: 0 <= i < |external| ==> Nameable(texts, selections, external[..i], external[i])
  }

  // The chassis named are those met, by their last system name or else the id they were first met by.
  ghost predicate RightNames(texts: Texts, external: seq<Neighbor>, naming: Naming) {
    forall chassis ::
      && (chassis in naming <==> FirstId(texts, external, chassis).Some?)
      && (chassis !in naming ==> LastSystemName(texts, external, chassis).None?)
      && (chassis in naming ==> naming[chassis] == NameFor(texts, external, chassis) && naming[chassis].id != "")
  }

  lemma NextNameable(texts: Texts, selections: map<string, Selection>, front: seq<Neighbor>, n: Neighbor, naming: Naming)
    requires RightNames(texts, front, naming)
    ensures NamedAfter(texts, selections, naming, n).Some? <==> Nameable(texts, selections, front, n)
  {
    hide ChassisOf, LastSystemName, FirstId;
  }

  lemma NextRight(texts: Texts, selections: map<string, Selection>, front: seq<Neighbor>, n: Neighbor, naming: Naming)
    requires RightNames(texts, front, naming) && NamedAfter(texts, selections, naming, n).Some?
    ensures RightNames(texts, front + [n], NamedAfter(texts, selections, naming, n).value)
  {
    var mine, after := ChassisOf(texts, n), NamedAfter(texts, selections, naming, n).value;
    hide ChassisOf, LastSystemName, FirstId;
    forall chassis
      ensures FirstId(texts, front + [n], chassis).Some? <==> FirstId(texts, front, chassis).Some? || chassis == mine
      ensures chassis != mine ==> NameFor(texts, front + [n], chassis) == NameFor(texts, front, chassis)
      ensures chassis != mine ==> LastSystemName(texts, front + [n], chassis) == LastSystemName(texts, front, chassis)
    {
      LastNameNext(texts, front, n, chassis);
      FirstIdNext(texts, front, n, chassis);
    }
    NameForNext(texts, front, n, mine);
  }

  lemma NameableNext(texts: Texts, selections: map<string, Selection>, front: seq<Neighbor>, n: Neighbor)
    ensures AllNameable(texts, selections, front + [n]) <==> AllNameable(texts, selections, front) && Nameable(texts, selections, front, n)
  {
    hide Nameable;
    var all := front + [n];
    assert all[..|front|] == front && all[|front|] == n;
    forall i | 0 <= i < |front| ensures Nameable(texts, selections, all[..i], all[i]) <==> Nameable(texts, selections, front[..i], front[i]) {
      assert all[..i] == front[..i];
    }
  }

  // Main result: the chassis are named exactly when every external neighbour can be, and then rightly.
  lemma {:induction false} NamedExactly(texts: Texts, selections: map<string, Selection>, external: seq<Neighbor>)
    ensures Names(texts, selections, external).Some? <==> AllNameable(texts, selections, external)
    ensures Names(texts, selections, external).Some? ==> RightNames(texts, external, Names(texts, selections, external).value)
  {
    if external == [] {
      NoneNamedYet(texts);
    } else {
      hide NamedAfter, RightNames, AllNameable, Nameable;
      var front, n := external[..|external| - 1], external[|external| - 1];
      assert external == front + [n];
      NamedExactly(texts, selections, front);
      NameableNext(texts, selections, front, n);
      if Names(texts, selections, front).Some? {
        var naming := Names(texts, selections, front).value;
        NextNameable(texts, selections, front, n, naming);
        if NamedAfter(texts, selections, naming, n).Some? { NextRight(texts, selections, front, n, naming); }
      }
    }
  }

  lemma NoneNamedYet(texts: Texts)
    ensures RightNames(texts, [], map[])
  {
  }

  // One turn of the naming loop: None is an error.
  method NameOne(texts: Texts, selections: map<string, Selection>, naming: Naming, n: Neighbor) returns (result: Option<Naming>)
    ensures result == NamedAfter(texts, selections, naming, n)
  {
    if n.iface !in selections {
      return None;
    }
    var chassis := ChassisOf(texts, n);
    if chassis == "" {
      return None;
    }
    var resolved, systemName := Before(naming, chassis), texts.trim(n.systemName);
    if systemName != "" {
      if resolved.fromSystemName && !texts.same(resolved.id, systemName) {
        return None;
      }
      resolved := Named(systemName, true);
    } else if resolved.id == "" {
      resolved := resolved.(id := texts.trim(n.chassisId));
    }
    if resolved.id == "" {
      return None;
    }
    result := Some(naming[chassis := resolved]);
  }

  // The names after the first neighbours.
  ghost predicate NamedUpTo(texts: Texts, selections: map<string, Selection>, neighbors: seq<Neighbor>, i: nat, naming: Naming)
    requires i <= |neighbors|
  {
    Names(texts, selections, External(neighbors[..i])) == Some(naming)
  }

  lemma NamedSkip(texts: Texts, selections: map<string, Selection>, neighbors: seq<Neighbor>, i: nat, naming: Naming)
    requires i < |neighbors| && neighbors[i].localHost && NamedUpTo(texts, selections, neighbors, i, naming)
    ensures NamedUpTo(texts, selections, neighbors, i + 1, naming)
  {
    ExternalStep(neighbors, i);
    assert External(neighbors[..i]) + [] == External(neighbors[..i]);
  }

  lemma NamedNext(texts: Texts, selections: map<string, Selection>, neighbors: seq<Neighbor>, i: nat, naming: Naming, next: Option<Naming>)
    requires i < |neighbors| && !neighbors[i].localHost && NamedUpTo(texts, selections, neighbors, i, naming)
    requires next == NamedAfter(texts, selections, naming, neighbors[i])
    ensures Names(texts, selections, External(neighbors[..i + 1])) == next
    ensures next.None? ==> Names(texts, selections, External(neighbors)).None?
  {
    ExternalStep(neighbors, i);
    NamesNext(texts, selections, External(neighbors[..i]), neighbors[i]);
    if next.None? {
      NamesStuck(texts, selections, neighbors, i + 1);
    }
  }

  lemma NamesStuck(texts: Texts, selections: map<string, Selection>, neighbors: seq<Neighbor>, i: nat)
    requires i <= |neighbors| && Names(texts, selections, External(neighbors[..i])).None?
    ensures Names(texts, selections, External(neighbors)).None?
  {
    var some, all := External(neighbors[..i]), External(neighbors);
    ExternalPrefix(neighbors, i);
    assert all[..|some|] == some;
    PrefixNames(texts, selections, all, |some|);
  }

  method NameChassis(texts: Texts, selections: map<string, Selection>, neighbors: seq<Neighbor>) returns (naming: Option<Naming>)
    ensures naming == Names(texts, selections, External(neighbors))
  {
    var leafByChassis: Naming := map[];
    for i := 0 to |neighbors|
      invariant NamedUpTo(texts, selections, neighbors, i, leafByChassis)
    {
      if neighbors[i].localHost {
        NamedSkip(texts, selections, neighbors, i, leafByChassis);
        continue;
      }
      var next := NameOne(texts, selections, leafByChassis, neighbors[i]);
      NamedNext(texts, selections, neighbors, i, leafByChassis, next);
      if next.None? {
        return None;
      }
      leafByChassis := next.value;
    }
    assert neighbors[..|neighbors|] == neighbors;
    naming := Some(leafByChassis);
  }

  lemma NamesNext(texts: Texts, selections: map<string, Selection>, before: seq<Neighbor>, n: Neighbor)
    requires Names(texts, selections, before).Some?
    ensures Names(texts, selections, before + [n]) == NamedAfter(texts, selections, Names(texts, selections, before).value, n)
  {
    assert (before + [n])[..|before|] == before;
  }

  lemma {:induction false} ExternalPrefix(neighbors: seq<Neighbor>, i: nat)
    requires i <= |neighbors|
    ensures External(neighbors[..i]) <= External(neighbors)
    decreases |neighbors| - i
  {
    if i == |neighbors| {
      assert neighbors[..i] == neighbors;
    } else {
      ExternalStep(neighbors, i);
      ExternalPrefix(neighbors, i + 1);
    }
  }

  // The loop over leafByChassis, in any order.
  method CheckNames(texts: Texts, naming: Naming) returns (ok: bool)
    ensures ok <==> Unambiguous(texts, naming)
  {
    var chassisByName: map<string, string> := map[];
    var todo := naming.Keys;
    while todo != {}
      invariant todo <= naming.Keys
      invariant forall name :: name in chassisByName ==> chassisByName[name] in naming.Keys - todo && texts.lower(naming[chassisByName[name]].id) == name
      invariant forall a :: a in naming.Keys - todo ==> texts.lower(naming[a].id) in chassisByName && chassisByName[texts.lower(naming[a].id)] == a
      decreases todo
    {
      var chassis :| chassis in todo;
      var key := texts.lower(naming[chassis].id);
      if key in chassisByName && chassisByName[key] != chassis {
        return false;
      }
      chassisByName := chassisByName[key := chassis];
      todo := todo - {chassis};
    }
    ok := true;
  }

  ghost predicate Builds(texts: Texts, selections: map<string, Selection>, neighbors: seq<Neighbor>) {
    var naming := Names(texts, selections, External(neighbors));
    naming.Some? && naming.value != map[] && Unambiguous(texts, naming.value)
  }

  // No two external neighbours of different chassis would bear one name up to case.
  ghost predicate ToldByName(texts: Texts, external: seq<Neighbor>) {
    forall m, n :: m in external && n in external && ChassisOf(texts, m) != ChassisOf(texts, n) ==>
      texts.lower(NameFor(texts, external, ChassisOf(texts, m)).id) != texts.lower(NameFor(texts, external, ChassisOf(texts, n)).id)
  }

  lemma {:induction false} MetExactly(texts: Texts, external: seq<Neighbor>, chassis: string)
    ensures FirstId(texts, external, chassis).Some? <==> exists n :: n in external && ChassisOf(texts, n) == chassis
  {
    hide ChassisOf;
    if external != [] {
      MetExactly(texts, external[1..], chassis);
      assert forall n :: n in external <==> n == external[0] || n in external[1..];
    }
  }

  // Main result: links are built exactly when there is an external neighbour, every one can be named, and the names
  // tell the chassis apart.
  lemma BuildsExactly(texts: Texts, selections: map<string, Selection>, neighbors: seq<Neighbor>)
    ensures Builds(texts, selections, neighbors) <==>
              var external := External(neighbors); external != [] && AllNameable(texts, selections, external) && ToldByName(texts, external)
  {
    var external := External(neighbors);
    hide External, ChassisOf, FirstId, LastSystemName, NameFor, AllNameable;
    NamedExactly(texts, selections, external);
    forall chassis ensures FirstId(texts, external, chassis).Some? <==> exists n :: n in external && ChassisOf(texts, n) == chassis {
      MetExactly(texts, external, chassis);
    }
    if Names(texts, selections, external).Some? {
      var naming := Names(texts, selections, external).value;
      assert forall chassis :: chassis in naming <==> exists n :: n in external && ChassisOf(texts, n) == chassis;
      hide Names;
      if external != [] { assert ChassisOf(texts, external[0]) in naming; }
      if naming != map[] {
        var chassis :| chassis in naming;
        var n :| n in external && ChassisOf(texts, n) == chassis;
      }
      ToldByNameExactly(texts, external, naming);
    }
  }

  lemma ToldByNameExactly(texts: Texts, external: seq<Neighbor>, naming: Naming)
    requires forall chassis :: chassis in naming <==> exists n :: n in external && ChassisOf(texts, n) == chassis
    requires forall chassis :: chassis in naming ==> naming[chassis] == NameFor(texts, external, chassis)
    ensures Unambiguous(texts, naming) <==> ToldByName(texts, external)
  {
    hide ChassisOf, NameFor;
    if ToldByName(texts, external) {
      forall a, b | a in naming && b in naming && texts.lower(naming[a].id) == texts.lower(naming[b].id) ensures a == b {
        var m :| m in external && ChassisOf(texts, m) == a;
        var n :| n in external && ChassisOf(texts, n) == b;
      }
    }
  }

  // Every link carries its neighbour's interface, chassis and port, its selection's bond, and its chassis' name.
  lemma LinkFields(texts: Texts, selections: map<string, Selection>, neighbors: seq<Neighbor>, links: seq<Link>, i: nat)
    requires Names(texts, selections, External(neighbors)).Some? && i < |links|
    requires Linked(texts, selections, Names(texts, selections, External(neighbors)).value, External(neighbors), links)
    ensures |links| == |External(neighbors)|
    ensures var n, link := External(neighbors)[i], links[i];
            && n.iface in selections && link.iface == n.iface && link.port == n.portId
            && link.chassisId == n.chassisId && link.chassisSubtype == n.chassisSubtype
            && link.bondName == selections[n.iface].bondName && link.active == selections[n.iface].active
            && link.bondMode == (if selections[n.iface].bondMode != "" then selections[n.iface].bondMode else "direct")
            && link.leaf == NameFor(texts, External(neighbors), ChassisOf(texts, n)).id
  {
    hide External, ChassisOf, NameFor, Names, AllNameable;
    NamedExactly(texts, selections, External(neighbors));
  }

  // The loop that appends one link per external neighbour.
  method MakeLinks(texts: Texts, neighbors: seq<Neighbor>, selections: map<string, Selection>, naming: Naming) returns (links: seq<Link>)
    requires forall n :: n in External(neighbors) ==> n.iface in selections && ChassisOf(texts, n) in naming
    ensures Linked(texts, selections, naming, External(neighbors), links)
  {
    links := [];
    for i := 0 to |neighbors|
      invariant Linked(texts, selections, naming, External(neighbors[..i]), links)
    {
      ExternalStep(neighbors, i);
      if neighbors[i].localHost {
        continue;
      }
      ExternalHas(neighbors, i);
      var s := selections[neighbors[i].iface];
      var mode := s.bondMode;
      if mode == "" {
        mode := "direct";
      }
      var leaf := naming[ChassisOf(texts, neighbors[i])].id;
      links := links + [Link(s.bondName, mode, neighbors[i].iface, leaf, neighbors[i].chassisId, neighbors[i].chassisSubtype, neighbors[i].portId, s.active)];
    }
    assert neighbors[..|neighbors|] == neighbors;
  }

  lemma ExternalHas(neighbors: seq<Neighbor>, i: nat)
    requires i < |neighbors| && !neighbors[i].localHost
    ensures neighbors[i] in External(neighbors)
  {
    ExternalStep(neighbors, i);
    ExternalPrefix(neighbors, i + 1);
    var some := External(neighbors[..i + 1]);
    assert some[|some| - 1] == neighbors[i];
    assert External(neighbors)[|some| - 1] == neighbors[i];
  }

  method BuildLeafLinks(texts: Texts, neighbors: seq<Neighbor>, selections: map<string, Selection>) returns (result: Option<seq<Link>>)
    requires Lawful(texts)
    ensures result.Some? <==> Builds(texts, selections, neighbors)
    ensures result.Some? ==> Linked(texts, selections, Names(texts, selections, External(neighbors)).value, External(neighbors), result.value)
  {
    var naming := NameChassis(texts, selections, neighbors);
    if naming.None? || naming.value == map[] {
      return None;
    }
    var ok := CheckNames(texts, naming.value);
    if !ok {
      return None;
    }
    NamesExactly(texts, selections, External(neighbors));
    var links := MakeLinks(texts, neighbors, selections, naming.value);
    result := Some(links);
  }

  // Main result: on success two links carry leaf names equal up to case exactly when they come from one chassis
  // (and then the names are the same text).
  lemma SameNameExactly(texts: Texts, selections: map<string, Selection>, neighbors: seq<Neighbor>, links: seq<Link>, i: nat, j: nat)
    requires Builds(texts, selections, neighbors) && i < |links| && j < |links|
    requires Linked(texts, selections, Names(texts, selections, External(neighbors)).value, External(neighbors), links)
    ensures texts.lower(links[i].leaf) == texts.lower(links[j].leaf) <==>
              Chassis(texts, links[i].chassisSubtype, links[i].chassisId) == Chassis(texts, links[j].chassisSubtype, links[j].chassisId)
    ensures texts.lower(links[i].leaf) == texts.lower(links[j].leaf) ==> links[i].leaf == links[j].leaf
  {
  }

  // ---- Normalize ----

  function Key(texts: Texts, link: Link): string {
    link.iface + [NUL] + (link.leaf + ([NUL] + texts.trim(link.port)))
  }

  function Trimmed(texts: Texts, link: Link): Link {
    link.(iface := texts.trim(link.iface), leaf := texts.trim(link.leaf))
  }

  // linksByIdentity: the last link of each key.
  function ByKey(texts: Texts, links: seq<Link>): map<string, Link> {
    if links == [] then map[]
    else
      var link := Trimmed(texts, links[|links| - 1]);
      ByKey(texts, links[..|links| - 1])[Key(texts, link) := link]
  }

  function LeavesIn(byKey: map<string, Link>): set<string> {
    set key | key in byKey :: byKey[key].leaf
  }

  function LeafSet(texts: Texts, links: seq<Link>): set<string> {
    LeavesIn(ByKey(texts, links))
  }

  predicate Complete(texts: Texts, links: seq<Link>) {
    forall i :: 0 <= i < |links| ==> texts.trim(links[i].iface) != "" && texts.trim(links[i].leaf) != ""
  }

  method MergeByKey(texts: Texts, links: seq<Link>) returns (ok: bool, byKey: map<string, Link>)
    ensures ok <==> Complete(texts, links)
    ensures ok ==> byKey == ByKey(texts, links)
  {
    byKey := map[];
    for i := 0 to |links|
      invariant byKey == ByKey(texts, links[..i])
      invariant forall k :: 0 <= k < i ==> texts.trim(links[k].iface) != "" && texts.trim(links[k].leaf) != ""
    {
      assert links[..i + 1][..i] == links[..i];
      var link := links[i].(iface := texts.trim(links[i].iface), leaf := texts.trim(links[i].leaf));
      if link.iface == "" || link.leaf == "" {
        return false, byKey;
      }
      byKey := byKey[Key(texts, link) := link];
    }
    assert links[..|links|] == links;
    ok := true;
  }

  method Collect(byKey: map<string, Link>) returns (leaves: set<string>, kept: set<Link>)
    ensures leaves == LeavesIn(byKey) && kept == set key | key in byKey :: byKey[key]
  {
    leaves, kept := {}, {};
    var todo := byKey.Keys;
    while todo != {}
      invariant todo <= byKey.Keys
      invariant leaves == set key | key in byKey.Keys - todo :: byKey[key].leaf
      invariant kept == set key | key in byKey.Keys - todo :: byKey[key]
      decreases todo
    {
      var key :| key in todo;
      AddedValue(byKey, byKey.Keys - todo, key);
      assert byKey.Keys - (todo - {key}) == byKey.Keys - todo + {key};
      leaves, kept := leaves + {byKey[key].leaf}, kept + {byKey[key]};
      todo := todo - {key};
    }
    assert byKey.Keys - {} == byKey.Keys;
  }

  // The leaf ids and links of a Node; lists that are sorted afterwards are sets.
  method Normalize(texts: Texts, links: seq<Link>) returns (ok: bool, leaves: set<string>, kept: set<Link>)
    ensures ok <==> Complete(texts, links) && links != []
    ensures ok ==> leaves == LeafSet(texts, links) && kept == set key | key in ByKey(texts, links) :: ByKey(texts, links)[key]
  {
    var byKey;
    ok, byKey := MergeByKey(texts, links);
    if !ok {
      return false, {}, {};
    }
    leaves, kept := Collect(byKey);
    SomeLeaf(texts, links);
    ok := leaves != {};
  }

  lemma SomeLeaf(texts: Texts, links: seq<Link>)
    ensures LeafSet(texts, links) == {} <==> links == []
  {
    if links != [] {
      var key := Key(texts, Trimmed(texts, links[|links| - 1]));
      assert key in ByKey(texts, links);
      assert ByKey(texts, links)[key].leaf in LeafSet(texts, links);
    }
  }

  lemma AddedValue(byKey: map<string, Link>, keys: set<string>, key: string)
    requires keys + {key} <= byKey.Keys
    ensures (set k | k in keys + {key} :: byKey[k].leaf) == (set k | k in keys :: byKey[k].leaf) + {byKey[key].leaf}
    ensures (set k | k in keys + {key} :: byKey[k]) == (set k | k in keys :: byKey[k]) + {byKey[key]}
  {
    assert key in keys + {key};
    assert forall k :: k in keys ==> k in keys + {key};
  }

  // ---- The published leaf count ----

  predicate NoNul(s: string) {
    forall i :: 0 <= i < |s| ==> s[i] != NUL
  }

  lemma NoShorter(a: string, x: string, b: string, y: string)
    requires NoNul(b) && a + [NUL] + x == b + [NUL] + y
    ensures |a| >= |b|
  {
    assert (a + [NUL] + x)[|a|] == NUL;
    NoNulBefore(b, y);
  }

  lemma NoNulBefore(b: string, y: string)
    requires NoNul(b)
    ensures forall i :: 0 <= i < |b| ==> (b + [NUL] + y)[i] != NUL
  {
  }

  // Up to the first NUL a text is determined.
  lemma FirstPart(a: string, x: string, b: string, y: string)
    requires NoNul(a) && NoNul(b) && a + [NUL] + x == b + [NUL] + y
    ensures a == b && x == y
  {
    var s, t := a + [NUL] + x, b + [NUL] + y;
    NoShorter(a, x, b, y);
    NoShorter(b, y, a, x);
    assert s[..|a|] == a && t[..|b|] == b;
    assert s[|a| + 1..] == x && t[|b| + 1..] == y;
  }

  // b goes on after a with a NUL in such a way that the rest can pass for the beginning of a port.
  ghost predicate Confusable(texts: Texts, a: string, b: string) {
    exists y, port :: Continues(texts, a, b, y, port)
  }

  predicate Continues(texts: Texts, a: string, b: string, y: string, port: string) {
    b == a + [NUL] + y && texts.trim(port) == port && texts.trim(y + [NUL] + port) == y + [NUL] + port
  }

  ghost predicate NamesApart(texts: Texts, names: set<string>) {
    forall a, b :: a in names && b in names ==> !Confusable(texts, a, b)
  }

  lemma ShorterContinues(texts: Texts, a: string, p: string, b: string, q: string)
    requires a + [NUL] + p == b + [NUL] + q && |a| < |b| && texts.trim(p) == p && texts.trim(q) == q
    ensures Confusable(texts, a, b)
  {
    var s, t := a + [NUL] + p, b + [NUL] + q;
    var y := b[|a| + 1..];
    assert s[|a|] == NUL && t[|a|] == b[|a|];
    assert s[..|a|] == a && t[..|a|] == b[..|a|];
    assert b == a + [NUL] + y;
    assert s[|a| + 1..] == p && t[|a| + 1..] == y + [NUL] + q;
    assert Continues(texts, a, b, y, q);
  }

  lemma KeyTellsLeaves(texts: Texts, a: Link, b: Link)
    requires Lawful(texts) && NoNul(a.iface) && NoNul(b.iface) && Key(texts, a) == Key(texts, b)
    requires !Confusable(texts, a.leaf, b.leaf) && !Confusable(texts, b.leaf, a.leaf)
    ensures a.leaf == b.leaf
  {
    var p, q := texts.trim(a.port), texts.trim(b.port);
    FirstPart(a.iface, a.leaf + ([NUL] + p), b.iface, b.leaf + ([NUL] + q));
    assert a.leaf + ([NUL] + p) == a.leaf + [NUL] + p && b.leaf + ([NUL] + q) == b.leaf + [NUL] + q;
    if |a.leaf| < |b.leaf| {
      ShorterContinues(texts, a.leaf, p, b.leaf, q);
    } else if |b.leaf| < |a.leaf| {
      ShorterContinues(texts, b.leaf, q, a.leaf, p);
    } else {
      SameLength(a.leaf, [NUL] + p, b.leaf, [NUL] + q);
    }
  }

  lemma SameLength(a: string, x: string, b: string, y: string)
    requires |a| == |b| && a + x == b + y
    ensures a == b
  {
    assert (a + x)[..|a|] == a && (b + y)[..|b|] == b;
  }

  // Links on interfaces without NUL, of leaves with these names.
  ghost predicate Uses(texts: Texts, links: seq<Link>, names: set<string>) {
    forall i :: 0 <= i < |links| ==> NoNul(texts.trim(links[i].iface)) && texts.trim(links[i].leaf) in names
  }

  // The table knows each link by its own key.
  ghost predicate KeyedTable(texts: Texts, byKey: map<string, Link>, names: set<string>) {
    forall key :: key in byKey ==> Key(texts, byKey[key]) == key && NoNul(byKey[key].iface) && byKey[key].leaf in names
  }

  function LeafNames(texts: Texts, links: seq<Link>): set<string> {
    set i | 0 <= i < |links| :: texts.trim(links[i].leaf)
  }

  lemma OneMoreName(texts: Texts, links: seq<Link>)
    requires links != []
    ensures LeafNames(texts, links) == LeafNames(texts, links[..|links| - 1]) + {texts.trim(links[|links| - 1].leaf)}
  {
    var front := links[..|links| - 1];
    assert forall i :: 0 <= i < |front| ==> front[i] == links[i];
  }

  // No leaf is lost when links are merged by key.
  lemma {:induction false} NoLeafLost(texts: Texts, links: seq<Link>, names: set<string>)
    requires Lawful(texts) && NamesApart(texts, names) && Uses(texts, links, names)
    ensures LeafSet(texts, links) == LeafNames(texts, links) && KeyedTable(texts, ByKey(texts, links), names)
  {
    if links != [] {
      NoLeafLost(texts, links[..|links| - 1], names);
      ReplacedKey(texts, ByKey(texts, links[..|links| - 1]), names, Trimmed(texts, links[|links| - 1]));
      OneMoreName(texts, links);
    }
  }

  lemma ReplacedKey(texts: Texts, byKey: map<string, Link>, names: set<string>, link: Link)
    requires Lawful(texts) && NamesApart(texts, names) && KeyedTable(texts, byKey, names) && NoNul(link.iface) && link.leaf in names
    ensures KeyedTable(texts, byKey[Key(texts, link) := link], names)
    ensures LeavesIn(byKey[Key(texts, link) := link]) == LeavesIn(byKey) + {link.leaf}
  {
    var after := byKey[Key(texts, link) := link];
    if Key(texts, link) in byKey { KeyTellsLeaves(texts, byKey[Key(texts, link)], link); }
    assert Key(texts, link) in after;
    forall key | key in byKey ensures after[key].leaf == byKey[key].leaf && key in after {}
  }

  // Two links of different leaves under one key.
  lemma ConfusableMerges(texts: Texts, iface: string, a: string, b: string, y: string, port: string)
    requires Clean(texts, iface) && Clean(texts, a) && Clean(texts, b) && NoNul(iface) && Continues(texts, a, b, y, port)
    ensures var links := [Link("", "", iface, b, "", "", port, true), Link("", "", iface, a, "", "", y + [NUL] + port, true)];
            Uses(texts, links, {a, b}) && LeafSet(texts, links) == {a} && LeafNames(texts, links) == {a, b} && a != b
  {
    var first, second := Link("", "", iface, b, "", "", port, true), Link("", "", iface, a, "", "", y + [NUL] + port, true);
    assert Trimmed(texts, first) == first && Trimmed(texts, second) == second;
    assert Key(texts, first) == Key(texts, second) by {
      assert a + [NUL] + y + ([NUL] + port) == a + ([NUL] + (y + [NUL] + port));
    }
    assert [first, second][..1] == [first] && [first][..0] == [];
    assert ByKey(texts, [first]) == map[Key(texts, first) := first];
    assert ByKey(texts, [first, second]) == map[Key(texts, second) := second];
    assert Key(texts, second) in ByKey(texts, [first, second]);
    assert texts.trim([first, second][0].leaf) == b && texts.trim([first, second][1].leaf) == a;
    assert |b| > |a|;
  }

  // Whatever the links, all leaves of these names stay.
  ghost predicate AlwaysKept(texts: Texts, names: set<string>) {
    forall links :: Uses(texts, links, names) ==> LeafSet(texts, links) == LeafNames(texts, links)
  }

  // Main result: merging links loses no leaf, whatever the interfaces and ports, exactly when no leaf name goes on
  // after another with a NUL. (Interface, leaf name and port are joined with NUL.)
  lemma LeavesKeptExactly(texts: Texts, names: set<string>, iface: string)
    requires Lawful(texts) && Clean(texts, iface) && NoNul(iface) && forall name :: name in names ==> Clean(texts, name)
    ensures AlwaysKept(texts, names) <==> NamesApart(texts, names)
  {
    if NamesApart(texts, names) {
      forall links | Uses(texts, links, names) ensures LeafSet(texts, links) == LeafNames(texts, links) {
        NoLeafLost(texts, links, names);
      }
    } else {
      var a, b :| a in names && b in names && Confusable(texts, a, b);
      var y, port :| Continues(texts, a, b, y, port);
      ConfusableMerges(texts, iface, a, b, y, port);
      var links := [Link("", "", iface, b, "", "", port, true), Link("", "", iface, a, "", "", y + [NUL] + port, true)];
      assert Uses(texts, links, names) && LeafSet(texts, links) != LeafNames(texts, links);
    }
  }

  lemma WithoutNulApart(texts: Texts, names: set<string>)
    requires forall name :: name in names ==> NoNul(name)
    ensures NamesApart(texts, names)
  {
    forall a, b | a in names && b in names ensures !Confusable(texts, a, b) {
      forall y, port ensures !Continues(texts, a, b, y, port) {
        assert (a + [NUL] + y)[|a|] == NUL;
      }
    }
  }

  // As many values as keys, when different keys have different values.
  lemma {:induction false} ImageSize(keys: set<string>, naming: Naming)
    requires keys <= naming.Keys && forall a, b :: a in keys && b in keys && naming[a].id == naming[b].id ==> a == b
    ensures |set k | k in keys :: naming[k].id| == |keys|
    decreases |keys|
  {
    var image := set k | k in keys :: naming[k].id;
    if keys == {} {
      assert image == {};
    } else {
      var x :| x in keys;
      ImageSize(keys - {x}, naming);
      var rest := set k | k in keys - {x} :: naming[k].id;
      assert naming[x].id !in rest;
      assert image == rest + {naming[x].id};
    }
  }

  lemma {:induction false} NoLeafAdded(texts: Texts, links: seq<Link>)
    ensures forall key :: key in ByKey(texts, links) ==> ByKey(texts, links)[key].leaf in LeafNames(texts, links)
  {
    if links != [] {
      NoLeafAdded(texts, links[..|links| - 1]);
      OneMoreName(texts, links);
    }
  }

  lemma SameSize(part: set<string>, whole: set<string>)
    requires part <= whole
    ensures |part| == |whole| <==> part == whole
  {
    assert |whole - part| == |whole| - |part|;
  }

  lemma ChassisCount(texts: Texts, selections: map<string, Selection>, neighbors: seq<Neighbor>, links: seq<Link>)
    requires Lawful(texts) && Builds(texts, selections, neighbors)
    requires Linked(texts, selections, Names(texts, selections, External(neighbors)).value, External(neighbors), links)
    ensures |LeafNames(texts, links)| == |ChassisSet(texts, neighbors)|
  {
    var external := External(neighbors);
    var naming := Names(texts, selections, external).value;
    NamesExactly(texts, selections, external);
    assert ChassisSet(texts, neighbors) == naming.Keys;
    ImageSize(naming.Keys, naming);
    LinkedNames(texts, selections, naming, external, links);
  }

  // Main result: for every neighbour list that publishes at all, the published leaf-count is the number of distinct
  // external chassis observed exactly when merging by key lost no leaf name; in particular when the names are told
  // apart by the key.
  lemma LeafCountIsChassisCount(texts: Texts, selections: map<string, Selection>, neighbors: seq<Neighbor>, links: seq<Link>)
    requires Lawful(texts) && Builds(texts, selections, neighbors)
    requires Linked(texts, selections, Names(texts, selections, External(neighbors)).value, External(neighbors), links)
    ensures |LeafSet(texts, links)| <= |ChassisSet(texts, neighbors)|
    ensures |LeafSet(texts, links)| == |ChassisSet(texts, neighbors)| <==> LeafSet(texts, links) == LeafNames(texts, links)
    ensures Uses(texts, links, LeafNames(texts, links)) && NamesApart(texts, LeafNames(texts, links)) ==>
              |LeafSet(texts, links)| == |ChassisSet(texts, neighbors)|
  {
    hide Builds, Linked, NamesApart;
    ChassisCount(texts, selections, neighbors, links);
    NoLeafAdded(texts, links);
    assert |LeafNames(texts, links) - LeafSet(texts, links)| == |LeafNames(texts, links)| - |LeafSet(texts, links)|;
    SameSize(LeafSet(texts, links), LeafNames(texts, links));
    if Uses(texts, links, LeafNames(texts, links)) && NamesApart(texts, LeafNames(texts, links)) {
      NoLeafLost(texts, links, LeafNames(texts, links));
    }
  }

  lemma LinkedNames(texts: Texts, selections: map<string, Selection>, naming: Naming, external: seq<Neighbor>, links: seq<Link>)
    requires Linked(texts, selections, naming, external, links)
    requires naming.Keys == AllChassis(texts, external) && forall chassis :: chassis in naming ==> Clean(texts, naming[chassis].id)
    ensures LeafNames(texts, links) == set k | k in naming.Keys :: naming[k].id
  {
    forall i | 0 <= i < |links| ensures texts.trim(links[i].leaf) == naming[ChassisOf(texts, external[i])].id {
      assert Clean(texts, links[i].leaf);
    }
    forall k | k in naming.Keys ensures naming[k].id in LeafNames(texts, links) {
      var n :| n in external && ChassisOf(texts, n) == k;
      var i :| 0 <= i < |external| && external[i] == n;
      assert texts.trim(links[i].leaf) == naming[k].id;
    }
  }
}
