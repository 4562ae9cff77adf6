/** Joining Prometheus identities to Nodes by InternalIP: algorithm_server/go/algorithm/metric_binding.go. */
module MetricBinding {
  import opened Wrappers
  import opened Text
  import opened Sorting

  datatype NodeIp = NodeIp(name: string, ip: string)

  type Metrics = map<string, real>

  // What claims a key: nothing, one thing only, or different things.
  datatype Claim = Nobody | One(claimant: string) | Several

  // ---- The two tables, claim by claim ----

  // Which Node names claim an IP.
  function IpClaim(nodes: seq<NodeIp>, ip: string): Claim {
    if nodes == [] then Nobody
    else
      var before, last := IpClaim(nodes[..|nodes| - 1], ip), nodes[|nodes| - 1];
      if Trim(last.ip) != ip then before
      else match before
        case Nobody => One(last.name)
        case One(name) => if name == last.name then before else Several
        case Several => Several
  }

  // The Node an identity resolves to.
  function Resolved(nodes: seq<NodeIp>, identity: string): Option<string> {
    var ip := Trim(identity);
    if ip != "" && IpClaim(nodes, ip).One? then Some(IpClaim(nodes, ip).claimant) else None
  }

  // Which of these identities claim a Node name.
  function NameClaim(nodes: seq<NodeIp>, identities: seq<string>, name: string): Claim {
    if identities == [] then Nobody
    else
      var before, last := NameClaim(nodes, identities[..|identities| - 1], name), identities[|identities| - 1];
      if Resolved(nodes, last) != Some(name) then before
      else if before == Nobody then One(last)
      else Several
  }

  // ---- What the claims mean ----

  // Main result: an IP resolves to a name exactly when some Node has it and every Node that has it bears that name.
  lemma {:induction false} IpClaimExactly(nodes: seq<NodeIp>, ip: string, name: string)
    ensures IpClaim(nodes, ip) == One(name) <==>
              (exists n :: n in nodes && Trim(n.ip) == ip) && forall n :: n in nodes && Trim(n.ip) == ip ==> n.name == name
    ensures IpClaim(nodes, ip) == Nobody <==> forall n :: n in nodes ==> Trim(n.ip) != ip
  {
    hide Trim;
    if nodes != [] {
      var front, last := nodes[..|nodes| - 1], nodes[|nodes| - 1];
      IpClaimExactly(front, ip, name);
      IpClaimExactly(front, ip, last.name);
      assert forall n :: n in nodes <==> n in front || n == last;
    }
  }

  // Main result: a name is claimed by one identity exactly when that identity and no other resolves to it.
  lemma {:induction false} NameClaimExactly(nodes: seq<NodeIp>, identities: seq<string>, name: string, identity: string)
    requires Distinct(identities)
    ensures NameClaim(nodes, identities, name) == One(identity) <==>
              identity in identities && Resolved(nodes, identity) == Some(name)
              && forall other :: other in identities && Resolved(nodes, other) == Some(name) ==> other == identity
    ensures NameClaim(nodes, identities, name) == Nobody <==> forall other :: other in identities ==> Resolved(nodes, other) != Some(name)
  {
    if identities != [] {
      var front, last := identities[..|identities| - 1], identities[|identities| - 1];
      NameClaimExactly(nodes, front, name, identity);
      assert forall i :: i in identities <==> i in front || i == last;
      assert last !in front;
    }
  }

  // An identity resolves to a name exactly when its trimmed text is the IP of some Node, and of Nodes of that name only.
  lemma ResolvedExactly(nodes: seq<NodeIp>, identity: string, name: string)
    ensures Resolved(nodes, identity) == Some(name) <==>
            && Trim(identity) != ""
            && (exists n :: n in nodes && Trim(n.ip) == Trim(identity))
            && forall n :: n in nodes && Trim(n.ip) == Trim(identity) ==> n.name == name
  {
    hide Trim, IpClaim;
    IpClaimExactly(nodes, Trim(identity), name);
    if IpClaim(nodes, Trim(identity)).One? { IpClaimExactly(nodes, Trim(identity), IpClaim(nodes, Trim(identity)).claimant); }
  }

  // ---- The loops ----

  ghost predicate Indexed(nodes: seq<NodeIp>, nodeByIp: map<string, string>, invalid: set<string>) {
    && (forall ip :: ip in nodeByIp <==> ip != "" && IpClaim(nodes, ip).One?)
    && (forall ip :: ip in nodeByIp ==> IpClaim(nodes, ip) == One(nodeByIp[ip]))
    && (forall ip :: ip in invalid <==> ip != "" && IpClaim(nodes, ip) == Several)
  }

  lemma IpNext(nodes: seq<NodeIp>, n: NodeIp, ip: string)
    ensures IpClaim(nodes + [n], ip) ==
              if Trim(n.ip) != ip then IpClaim(nodes, ip)
              else match IpClaim(nodes, ip)
                case Nobody => One(n.name)
                case One(name) => if name == n.name then One(name) else Several
                case Several => Several
  {
    assert (nodes + [n])[..|nodes|] == nodes;
  }

  // The table after one more Node, by the three branches.
  lemma IndexNext(nodes: seq<NodeIp>, n: NodeIp, nodeByIp: map<string, string>, invalid: set<string>)
    requires Indexed(nodes, nodeByIp, invalid)
    ensures var ip := Trim(n.ip);
            if ip == "" then Indexed(nodes + [n], nodeByIp, invalid)
            else if ip in nodeByIp && nodeByIp[ip] != n.name then Indexed(nodes + [n], nodeByIp - {ip}, invalid + {ip})
            else if ip !in invalid then Indexed(nodes + [n], nodeByIp[ip := n.name], invalid)
            else Indexed(nodes + [n], nodeByIp, invalid)
  {
    hide Trim, IpClaim;
    forall ip
      ensures Trim(n.ip) != ip ==> IpClaim(nodes + [n], ip) == IpClaim(nodes, ip)
    {
      IpNext(nodes, n, ip);
    }
    IpNext(nodes, n, Trim(n.ip));
  }

  // nodeByIP and invalidIPs: an IP claimed by a second name is deleted, and stays out.
  method IndexByIp(nodes: seq<NodeIp>) returns (nodeByIp: map<string, string>, invalid: set<string>, withoutIp: nat)
    ensures Indexed(nodes, nodeByIp, invalid)
    ensures withoutIp == 0 <==> forall n :: n in nodes ==> Trim(n.ip) != ""
  {
    hide Trim;
    nodeByIp, invalid, withoutIp := map[], {}, 0;
    for i := 0 to |nodes|
      invariant Indexed(nodes[..i], nodeByIp, invalid)
      invariant withoutIp == 0 <==> forall k :: 0 <= k < i ==> Trim(nodes[k].ip) != ""
    {
      IndexNext(nodes[..i], nodes[i], nodeByIp, invalid);
      assert nodes[..i + 1] == nodes[..i] + [nodes[i]];
      var name, ip := nodes[i].name, Trim(nodes[i].ip);
      if ip == "" {
        withoutIp := withoutIp + 1;
        continue;
      }
      if ip in nodeByIp && nodeByIp[ip] != name {
        nodeByIp, invalid := nodeByIp - {ip}, invalid + {ip};
        continue;
      }
      if ip !in invalid {
        nodeByIp := nodeByIp[ip := name];
      }
    }
    assert nodes[..|nodes|] == nodes;
  }

  ghost predicate Mapped(nodes: seq<NodeIp>, snapshot: map<string, Metrics>, done: seq<string>, mapped: map<string, Metrics>, ambiguous: set<string>) {
    && (forall name :: name in mapped <==> NameClaim(nodes, done, name).One?)
    && (forall name :: name in mapped ==> NameClaim(nodes, done, name).claimant in snapshot && mapped[name] == snapshot[NameClaim(nodes, done, name).claimant])
    && (forall name :: name in ambiguous <==> NameClaim(nodes, done, name) == Several)
  }

  lemma NameNext(nodes: seq<NodeIp>, done: seq<string>, identity: string, name: string)
    ensures NameClaim(nodes, done + [identity], name) ==
              if Resolved(nodes, identity) != Some(name) then NameClaim(nodes, done, name)
              else if NameClaim(nodes, done, name) == Nobody then One(identity) else Several
  {
    assert (done + [identity])[..|done|] == done;
  }

  // The table after one more identity, by the branches.
  lemma MapNext(nodes: seq<NodeIp>, snapshot: map<string, Metrics>, done: seq<string>, identity: string, mapped: map<string, Metrics>, ambiguous: set<string>)
    requires Mapped(nodes, snapshot, done, mapped, ambiguous) && identity in snapshot
    ensures var more := done + [identity];
            match Resolved(nodes, identity)
            case None => Mapped(nodes, snapshot, more, mapped, ambiguous)
            case Some(name) =>
              if name in mapped then Mapped(nodes, snapshot, more, mapped - {name}, ambiguous + {name})
              else if name !in ambiguous then Mapped(nodes, snapshot, more, mapped[name := snapshot[identity]], ambiguous)
              else Mapped(nodes, snapshot, more, mapped, ambiguous)
  {
    forall name
      ensures Resolved(nodes, identity) != Some(name) ==> NameClaim(nodes, done + [identity], name) == NameClaim(nodes, done, name)
    {
      NameNext(nodes, done, identity, name);
    }
    if Resolved(nodes, identity).Some? {
      NameNext(nodes, done, identity, Resolved(nodes, identity).value);
    }
  }

  // These are the keys, each once.
  ghost predicate Lists(done: seq<string>, todo: set<string>, keys: set<string>) {
    Distinct(done) && todo <= keys && (forall i :: i in done <==> i in keys && i !in todo)
  }

  // mapped and ambiguousNodes: a second identity deletes the entry, and it stays out.
  method MapByName(nodes: seq<NodeIp>, snapshot: map<string, Metrics>, nodeByIp: map<string, string>, ghost invalid: set<string>)
    returns (mapped: map<string, Metrics>, ambiguous: set<string>, unknown: nat, ghost done: seq<string>)
    requires Indexed(nodes, nodeByIp, invalid)
    ensures Lists(done, {}, snapshot.Keys) && Mapped(nodes, snapshot, done, mapped, ambiguous)
    ensures unknown == 0 <==> forall i :: i in snapshot ==> Resolved(nodes, i).Some?
  {
    mapped, ambiguous, unknown, done := map[], {}, 0, [];
    var todo := snapshot.Keys;
    while todo != {}
      invariant Lists(done, todo, snapshot.Keys)
      invariant Mapped(nodes, snapshot, done, mapped, ambiguous)
      invariant unknown == 0 <==> forall i :: i in done ==> Resolved(nodes, i).Some?
      decreases todo
    {
      var identity :| identity in todo;
      MapNext(nodes, snapshot, done, identity, mapped, ambiguous);
      ListsNext(done, todo, snapshot.Keys, identity);
      assert forall i :: i in done + [identity] <==> i in done || i == identity;
      done, todo := done + [identity], todo - {identity};
      var ip := Trim(identity);
      if ip !in nodeByIp {
        unknown := unknown + 1;
        continue;
      }
      var name := nodeByIp[ip];
      if name in mapped {
        mapped, ambiguous := mapped - {name}, ambiguous + {name};
        continue;
      }
      if name !in ambiguous {
        mapped := mapped[name := snapshot[identity]];
      }
    }
  }

  lemma ListsNext(done: seq<string>, todo: set<string>, keys: set<string>, identity: string)
    requires Lists(done, todo, keys) && identity in todo
    ensures Lists(done + [identity], todo - {identity}, keys)
  {
    assert identity !in done;
  }

  // ---- The join ----

  // This identity of the snapshot, and no other, resolves to the name.
  ghost predicate OnlyOne(nodes: seq<NodeIp>, snapshot: map<string, Metrics>, name: string, identity: string) {
    && identity in snapshot && Resolved(nodes, identity) == Some(name)
    && forall other :: other in snapshot && Resolved(nodes, other) == Some(name) ==> other == identity
  }

  ghost predicate Joined(nodes: seq<NodeIp>, snapshot: map<string, Metrics>, mapped: map<string, Metrics>) {
    && (forall name :: name in mapped ==> exists identity :: OnlyOne(nodes, snapshot, name, identity) && mapped[name] == snapshot[identity])
    && (forall name, identity :: OnlyOne(nodes, snapshot, name, identity) ==> name in mapped)
  }

  lemma MappedIsJoined(nodes: seq<NodeIp>, snapshot: map<string, Metrics>, done: seq<string>, mapped: map<string, Metrics>, ambiguous: set<string>)
    requires Lists(done, {}, snapshot.Keys) && Mapped(nodes, snapshot, done, mapped, ambiguous)
    ensures Joined(nodes, snapshot, mapped)
  {
    forall name | name in mapped
      ensures exists identity :: OnlyOne(nodes, snapshot, name, identity) && mapped[name] == snapshot[identity]
    {
      var identity := NameClaim(nodes, done, name).claimant;
      NameClaimExactly(nodes, done, name, identity);
      assert OnlyOne(nodes, snapshot, name, identity);
    }
    forall name, identity | OnlyOne(nodes, snapshot, name, identity) ensures name in mapped {
      NameClaimExactly(nodes, done, name, identity);
    }
  }

  // Every Node has an IP of its own name's, every identity resolves, and no two resolve to one name.
  ghost predicate OneToOne(nodes: seq<NodeIp>, snapshot: map<string, Metrics>) {
    && (forall n :: n in nodes ==> Trim(n.ip) != "")
    && (forall ip :: ip != "" ==> OneName(nodes, ip))
    && (forall i :: i in snapshot ==> Resolved(nodes, i).Some?)
    && (forall i, j :: i in snapshot && j in snapshot && Resolved(nodes, i) == Resolved(nodes, j) && Resolved(nodes, i).Some? ==> i == j)
  }

  // All Nodes with this IP bear one name.
  predicate OneName(nodes: seq<NodeIp>, ip: string) {
    forall m, n :: m in nodes && n in nodes && Trim(m.ip) == ip && Trim(n.ip) == ip ==> m.name == n.name
  }

  lemma SeveralExactly(nodes: seq<NodeIp>, ip: string)
    ensures IpClaim(nodes, ip) == Several <==> !OneName(nodes, ip)
  {
    if n :| n in nodes && Trim(n.ip) == ip {
      IpClaimExactly(nodes, ip, n.name);
      if IpClaim(nodes, ip).One? { IpClaimExactly(nodes, ip, IpClaim(nodes, ip).claimant); }
    } else {
      IpClaimExactly(nodes, ip, "");
    }
  }

  lemma NoneInvalid(nodes: seq<NodeIp>, nodeByIp: map<string, string>, invalid: set<string>)
    requires Indexed(nodes, nodeByIp, invalid)
    ensures invalid == {} <==> forall ip :: ip != "" ==> OneName(nodes, ip)
  {
    hide OneName, IpClaim;
    forall ip ensures IpClaim(nodes, ip) == Several <==> !OneName(nodes, ip) {
      SeveralExactly(nodes, ip);
    }
    if ip :| ip != "" && !OneName(nodes, ip) {
      assert ip in invalid;
    }
  }

  lemma NoneAmbiguous(nodes: seq<NodeIp>, snapshot: map<string, Metrics>, done: seq<string>, mapped: map<string, Metrics>, ambiguous: set<string>)
    requires Lists(done, {}, snapshot.Keys) && Mapped(nodes, snapshot, done, mapped, ambiguous)
    ensures ambiguous == {} <==>
              forall i, j :: i in snapshot && j in snapshot && Resolved(nodes, i) == Resolved(nodes, j) && Resolved(nodes, i).Some? ==> i == j
  {
    hide Resolved, NameClaim;
    if name :| name in ambiguous {
      NameClaimExactly(nodes, done, name, "");
      var i :| i in done && Resolved(nodes, i) == Some(name);
      NameClaimExactly(nodes, done, name, i);
      var j :| j in done && Resolved(nodes, j) == Some(name) && j != i;
      assert i in snapshot && j in snapshot;
    }
    forall i, j | i in snapshot && j in snapshot && Resolved(nodes, i) == Resolved(nodes, j) && Resolved(nodes, i).Some? && i != j
      ensures Resolved(nodes, i).value in ambiguous
    {
      var name := Resolved(nodes, i).value;
      NameClaimExactly(nodes, done, name, i);
      if NameClaim(nodes, done, name).One? {
        NameClaimExactly(nodes, done, name, NameClaim(nodes, done, name).claimant);
      }
    }
  }

  method CountMissing(nodes: seq<NodeIp>, mapped: map<string, Metrics>) returns (missing: nat)
    ensures missing == 0 <==> forall n :: n in nodes ==> n.name in mapped
  {
    missing := 0;
    for i := 0 to |nodes|
      invariant missing == 0 <==> forall k :: 0 <= k < i ==> nodes[k].name in mapped
    {
      if nodes[i].name !in mapped {
        missing := missing + 1;
      }
    }
  }

  // Main result: despite deleting and re-seeing entries, the join maps a name exactly when precisely one identity
  // resolves to it, in whatever order the identities come. Nothing is joined for another identity label.
  method Bind(nodes: seq<NodeIp>, snapshot: map<string, Metrics>, byNodeIp: bool) returns (mapped: map<string, Metrics>, degraded: bool)
    ensures !byNodeIp ==> mapped == snapshot && !degraded
    ensures byNodeIp ==> Joined(nodes, snapshot, mapped)
    ensures byNodeIp ==> (!degraded <==> OneToOne(nodes, snapshot) && forall n :: n in nodes ==> n.name in mapped)
  {
    if !byNodeIp {
      return snapshot, false;
    }
    var nodeByIp, invalid, withoutIp := IndexByIp(nodes);
    var ambiguous, unknown;
    ghost var done;
    mapped, ambiguous, unknown, done := MapByName(nodes, snapshot, nodeByIp, invalid);
    MappedIsJoined(nodes, snapshot, done, mapped, ambiguous);
    NoneInvalid(nodes, nodeByIp, invalid);
    NoneAmbiguous(nodes, snapshot, done, mapped, ambiguous);
    var missing := CountMissing(nodes, mapped);
    degraded := invalid != {} || withoutIp > 0 || unknown > 0 || ambiguous != {} || missing > 0;
  }

  // The relation leaves no choice, and knows no order of Nodes.
  lemma JoinIsUnique(nodes: seq<NodeIp>, permuted: seq<NodeIp>, snapshot: map<string, Metrics>, a: map<string, Metrics>, b: map<string, Metrics>)
    requires forall n :: n in nodes <==> n in permuted
    requires Joined(nodes, snapshot, a) && Joined(permuted, snapshot, b)
    ensures a == b
  {
    forall identity ensures Resolved(nodes, identity) == Resolved(permuted, identity) {
      SameClaims(nodes, permuted, Trim(identity));
    }
    forall name, identity ensures OnlyOne(nodes, snapshot, name, identity) <==> OnlyOne(permuted, snapshot, name, identity) {}
  }

  lemma SameClaims(nodes: seq<NodeIp>, permuted: seq<NodeIp>, ip: string)
    requires forall n :: n in nodes <==> n in permuted
    ensures IpClaim(nodes, ip) == IpClaim(permuted, ip)
  {
    forall name ensures IpClaim(nodes, ip) == One(name) <==> IpClaim(permuted, ip) == One(name) {
      IpClaimExactly(nodes, ip, name);
      IpClaimExactly(permuted, ip, name);
    }
    IpClaimExactly(nodes, ip, "");
    IpClaimExactly(permuted, ip, "");
    if IpClaim(nodes, ip).One? { assert IpClaim(permuted, ip) == One(IpClaim(nodes, ip).claimant); }
  }
}
