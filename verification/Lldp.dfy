/**
LLDP frames: parseLLDPFrame and its decoders in topology_agent/lldp.go, against the basic TLV format of section 8.4 of
IEEE 802.1AB-2009.
*/
module Lldp {
  import opened Wrappers

  newtype Byte = x: int | 0 <= x < 256

  type Bytes = seq<Byte>

  // strings.TrimSpace on the bytes of a text is a parameter.
  type Trimming = Bytes -> Bytes

  function Word(high: Byte, low: Byte): nat {
    high as int * 256 + low as int
  }

  function WordBytes(w: nat): Bytes
    requires w < 65536
  {
    [(w / 256) as Byte, (w % 256) as Byte]
  }

  lemma WordRoundTrip(w: nat)
    requires w < 65536
    ensures |WordBytes(w)| == 2 && Word(WordBytes(w)[0], WordBytes(w)[1]) == w
  {
  }

  // ---- TLVs ----

  datatype Tlv = Tlv(kind: nat, value: Bytes)

  // kind is the upper seven bits of the header, the length its lower nine.
  function Kind(p: Bytes): nat
    requires |p| >= 2
  {
    p[0] as int / 2
  }

  function Length(p: Bytes): nat
    requires |p| >= 2
  {
    p[0] as int % 2 * 256 + p[1] as int
  }

  // Read as one 16-bit word, header>>9 and header&0x1ff.
  lemma HeaderWord(p: Bytes)
    requires |p| >= 2
    ensures Kind(p) == Word(p[0], p[1]) / 512 && Length(p) == Word(p[0], p[1]) % 512
  {
  }

  // The TLVs before the End TLV (kind 0) or the end of the payload; None when one overruns the payload. A single
  // byte at the end is ignored.
  function Split(p: Bytes): Option<seq<Tlv>>
    decreases |p|
  {
    if |p| < 2 then Some([])
    else if 2 + Length(p) > |p| then None
    else if Kind(p) == 0 then Some([])
    else
      match Split(p[2 + Length(p)..])
      case None => None
      case Some(rest) => Some([Tlv(Kind(p), p[2..2 + Length(p)])] + rest)
  }

  predicate Encodable(t: Tlv) {
    0 < t.kind < 128 && |t.value| < 512
  }

  predicate AllEncodable(ts: seq<Tlv>) {
    forall i :: 0 <= i < |ts| ==> Encodable(ts[i])
  }

  function Header(kind: nat, length: nat): Bytes
    requires kind < 128 && length < 512
  {
    [(kind * 2 + length / 256) as Byte, (length % 256) as Byte]
  }

  lemma HeaderRead(kind: nat, length: nat, rest: Bytes)
    requires kind < 128 && length < 512
    ensures var p := Header(kind, length) + rest; |p| == 2 + |rest| && Kind(p) == kind && Length(p) == length && p[2..] == rest
  {
  }

  function Encode(t: Tlv): Bytes
    requires Encodable(t)
  {
    Header(t.kind, |t.value|) + t.value
  }

  function EncodeAll(ts: seq<Tlv>): Bytes
    requires AllEncodable(ts)
  {
    if ts == [] then [] else Encode(ts[0]) + EncodeAll(ts[1..])
  }

  lemma SplitOne(t: Tlv, rest: Bytes)
    requires Encodable(t)
    ensures var p := Encode(t) + rest;
            |p| >= 2 && Kind(p) == t.kind && Length(p) == |t.value| && 2 + Length(p) <= |p| && p[2..2 + Length(p)] == t.value && p[2 + Length(p)..] == rest
  {
    HeaderRead(t.kind, |t.value|, t.value + rest);
    assert Encode(t) + rest == Header(t.kind, |t.value|) + (t.value + rest);
    Cut(Header(t.kind, |t.value|) + (t.value + rest), t.value, rest);
  }

  lemma Cut(p: Bytes, value: Bytes, rest: Bytes)
    requires |p| >= 2 && p[2..] == value + rest
    ensures p[2..2 + |value|] == value && p[2 + |value|..] == rest
  {
    assert p[2..2 + |value|] == p[2..][..|value|];
    assert p[2 + |value|..] == p[2..][|value|..];
  }

  function Prepend(ts: seq<Tlv>, rest: Option<seq<Tlv>>): Option<seq<Tlv>> {
    if rest.Some? then Some(ts + rest.value) else None
  }

  lemma PrependOne(ts: seq<Tlv>, rest: Option<seq<Tlv>>)
    requires ts != []
    ensures Prepend([ts[0]], Prepend(ts[1..], rest)) == Prepend(ts, rest)
  {
    if rest.Some? {
      assert [ts[0]] + (ts[1..] + rest.value) == ts + rest.value;
    }
  }

  lemma SplitStep(t: Tlv, rest: Bytes)
    requires Encodable(t)
    ensures Split(Encode(t) + rest) == Prepend([t], Split(rest))
  {
    SplitOne(t, rest);
  }

  lemma EncodeStep(ts: seq<Tlv>, rest: Bytes)
    requires ts != [] && AllEncodable(ts)
    ensures AllEncodable(ts[1..]) && EncodeAll(ts) + rest == Encode(ts[0]) + (EncodeAll(ts[1..]) + rest)
  {
  }

  // Main result: whatever ends the payload, splitting the encoding of TLVs gives them back and goes on with the rest.
  lemma {:induction false} SplitEncoded(ts: seq<Tlv>, rest: Bytes)
    requires AllEncodable(ts)
    ensures Split(EncodeAll(ts) + rest) == Prepend(ts, Split(rest))
    decreases |ts|
  {
    if ts == [] {
      assert EncodeAll(ts) + rest == rest;
      if Split(rest).Some? { assert ts + Split(rest).value == Split(rest).value; }
    } else {
      EncodeStep(ts, rest);
      SplitStep(ts[0], EncodeAll(ts[1..]) + rest);
      SplitEncoded(ts[1..], rest);
      PrependOne(ts, Split(rest));
    }
  }

  const End: Bytes := [0, 0]

  lemma SplitEnd(p: Bytes)
    requires |p| >= 2 && p[0] == 0 && p[1] == 0
    ensures Split(p) == Some([])
  {
  }

  // Bytes after the End TLV are ignored, and so is a single byte at the end.
  lemma EndIgnoresTheRest(ts: seq<Tlv>, junk: Bytes)
    requires AllEncodable(ts)
    ensures Split(EncodeAll(ts) + (End + junk)) == Some(ts)
    ensures |junk| <= 1 ==> Split(EncodeAll(ts) + junk) == Some(ts)
  {
    SplitEnd(End + junk);
    SplitEncoded(ts, End + junk);
    assert ts + [] == ts;
    if |junk| <= 1 { SplitEncoded(ts, junk); }
  }

  // A TLV that overruns the payload before an End TLV makes the whole payload invalid.
  lemma OverrunIsRejected(ts: seq<Tlv>, kind: nat, length: nat, rest: Bytes)
    requires AllEncodable(ts)
    requires kind < 128 && length < 512 && |rest| < length
    ensures Split(EncodeAll(ts) + (Header(kind, length) + rest)) == None
  {
    HeaderRead(kind, length, rest);
    assert Split(Header(kind, length) + rest) == None;
    SplitEncoded(ts, Header(kind, length) + rest);
  }

  // ---- The values ----

  // An address or identifier as text: a MAC or IP in its usual notation, "type-<n>:<hex>", or the trimmed text.
  datatype Ident = NoIdent | Mac(mac: Bytes) | Ip(ip: Bytes) | Typed(family: Byte, address: Bytes) | Text(text: Bytes)

  predicate Empty(id: Ident) {
    id == NoIdent || id == Text([])
  }

  function DecodeNetworkAddress(value: Bytes): Ident {
    if |value| == 5 && value[0] == 1 then Ip(value[1..])
    else if |value| == 17 && value[0] == 2 then Ip(value[1..])
    else if |value| < 2 then NoIdent
    else Typed(value[0], value[1..])
  }

  predicate IsMac(chassis: bool, code: Byte) {
    if chassis then code == 4 else code == 3
  }

  predicate IsNetwork(chassis: bool, code: Byte) {
    if chassis then code == 5 else code == 4
  }

  // The subtype is kept as its code: the names of known codes differ, and "unknown-<code>" names the others.
  function DecodeIdentifier(trim: Trimming, value: Bytes, chassis: bool): (Option<Byte>, Ident) {
    if |value| < 2 then (None, NoIdent)
    else
      var code, data := value[0], value[1..];
      if IsMac(chassis, code) && |data| == 6 then (Some(code), Mac(data))
      else if IsNetwork(chassis, code) && |data| >= 2 then (Some(code), DecodeNetworkAddress(data))
      else (Some(code), Text(trim(data)))
  }

  // What every identifier is read as: chassis code 4 and port code 3 for a MAC, 5 and 4 for an address, text otherwise.
  lemma IdentifierExactly(trim: Trimming, value: Bytes, chassis: bool)
    ensures var (code, id) := DecodeIdentifier(trim, value, chassis);
            && (|value| < 2 <==> code == None) && (code == None ==> id == NoIdent)
            && (|value| >= 2 ==> code == Some(value[0]))
            && (id.Mac? <==> |value| == 7 && value[0] == if chassis then 4 else 3)
            && (id.Mac? ==> [value[0]] + id.mac == value)
            && (id.Text? <==> |value| >= 2 && !id.Mac? && (|value| >= 3 ==> value[0] != if chassis then 5 else 4))
            && (id.Text? ==> id.text == trim(value[1..]))
            && (|value| >= 3 && value[0] == (if chassis then 5 else 4) ==> id == DecodeNetworkAddress(value[1..]))
  {
  }

  // An address of family 1 with four bytes or of family 2 with sixteen is an IP; any other is kept with its family.
  lemma AddressExactly(family: Byte, address: Bytes)
    ensures var id := DecodeNetworkAddress([family] + address);
            && (address == [] <==> id == NoIdent)
            && (id == Ip(address) <==> (family == 1 && |address| == 4) || (family == 2 && |address| == 16))
            && (address != [] && !id.Ip? ==> id == Typed(family, address))
  {
    assert ([family] + address)[1..] == address;
  }

  function DecodeManagementAddress(value: Bytes): Ident {
    if |value| < 2 || value[0] < 2 || 1 + value[0] as int > |value| then NoIdent
    else DecodeNetworkAddress(value[1..1 + value[0] as int])
  }

  // The named capabilities are the lower eleven bits; a list of names is those bits.
  function DecodeCapabilities(value: Bytes): (nat, nat) {
    if |value| != 4 then (0, 0) else (Word(value[0], value[1]) % 2048, Word(value[2], value[3]) % 2048)
  }

  datatype Neighbor = Neighbor(
    destination: Bytes, source: Bytes,
    chassisSubtype: Option<Byte>, chassisId: Ident, portSubtype: Option<Byte>, portId: Ident, ttl: nat,
    portDescription: Bytes, systemName: Bytes, systemDescription: Bytes,
    supported: nat, enabled: nat, addresses: seq<Ident>)

  function Blank(destination: Bytes, source: Bytes): Neighbor {
    Neighbor(destination, source, None, NoIdent, None, NoIdent, 0, [], [], [], 0, 0, [])
  }

  // What one TLV does to the record; later TLVs of a kind override earlier ones, management addresses accumulate.
  function Take(trim: Trimming, n: Neighbor, t: Tlv): Neighbor {
    if t.kind == 1 then var (s, id) := DecodeIdentifier(trim, t.value, true); n.(chassisSubtype := s, chassisId := id)
    else if t.kind == 2 then var (s, id) := DecodeIdentifier(trim, t.value, false); n.(portSubtype := s, portId := id)
    else if t.kind == 3 then (if |t.value| == 2 then n.(ttl := Word(t.value[0], t.value[1])) else n)
    else if t.kind == 4 then n.(portDescription := trim(t.value))
    else if t.kind == 5 then n.(systemName := trim(t.value))
    else if t.kind == 6 then n.(systemDescription := trim(t.value))
    else if t.kind == 7 then var (s, e) := DecodeCapabilities(t.value); n.(supported := s, enabled := e)
    else if t.kind == 8 then (if DecodeManagementAddress(t.value) == NoIdent then n else n.(addresses := n.addresses + [DecodeManagementAddress(t.value)]))
    else n
  }

  function TakeAll(trim: Trimming, n: Neighbor, ts: seq<Tlv>): Neighbor
    decreases |ts|
  {
    if ts == [] then n else TakeAll(trim, Take(trim, n, ts[0]), ts[1..])
  }

  // ---- What the record says of the TLVs ----

  predicate IsLast(ts: seq<Tlv>, kind: nat, p: int) {
    0 <= p < |ts| && ts[p].kind == kind && forall q :: p < q < |ts| ==> ts[q].kind != kind
  }

  predicate IsTtl(t: Tlv) {
    t.kind == 3 && |t.value| == 2
  }

  predicate IsLastTtl(ts: seq<Tlv>, p: int) {
    0 <= p < |ts| && IsTtl(ts[p]) && forall q :: p < q < |ts| ==> !IsTtl(ts[q])
  }

  predicate Lacks(ts: seq<Tlv>, kind: nat) {
    forall t :: t in ts ==> t.kind != kind
  }

  // Chassis and port come from the last TLV of kind 1 and 2.
  ghost predicate IdentifiersFrom(trim: Trimming, ts: seq<Tlv>, n: Neighbor) {
    && (Lacks(ts, 1) ==> n.chassisSubtype == None && n.chassisId == NoIdent)
    && (forall p :: IsLast(ts, 1, p) ==> (n.chassisSubtype, n.chassisId) == DecodeIdentifier(trim, ts[p].value, true))
    && (Lacks(ts, 2) ==> n.portSubtype == None && n.portId == NoIdent)
    && (forall p :: IsLast(ts, 2, p) ==> (n.portSubtype, n.portId) == DecodeIdentifier(trim, ts[p].value, false))
  }

  // The texts from the last TLV of kind 4, 5 and 6, trimmed.
  ghost predicate TextsFrom(trim: Trimming, ts: seq<Tlv>, n: Neighbor) {
    && (Lacks(ts, 4) ==> n.portDescription == []) && (forall p :: IsLast(ts, 4, p) ==> n.portDescription == trim(ts[p].value))
    && (Lacks(ts, 5) ==> n.systemName == []) && (forall p :: IsLast(ts, 5, p) ==> n.systemName == trim(ts[p].value))
    && (Lacks(ts, 6) ==> n.systemDescription == []) && (forall p :: IsLast(ts, 6, p) ==> n.systemDescription == trim(ts[p].value))
  }

  // The time to live from the last TLV of kind 3 that has two bytes.
  ghost predicate TtlFrom(ts: seq<Tlv>, n: Neighbor) {
    && ((forall p :: !IsLastTtl(ts, p)) ==> n.ttl == 0)
    && (forall p :: IsLastTtl(ts, p) ==> n.ttl == Word(ts[p].value[0], ts[p].value[1]))
  }

  // The capabilities from the last TLV of kind 7, if it has four bytes.
  ghost predicate CapabilitiesFrom(ts: seq<Tlv>, n: Neighbor) {
    && (Lacks(ts, 7) ==> n.supported == 0 && n.enabled == 0)
    && (forall p :: IsLast(ts, 7, p) ==> AreCapabilities(ts[p].value, n.supported, n.enabled))
  }

  predicate AreCapabilities(value: Bytes, supported: nat, enabled: nat) {
    if |value| == 4 then supported == Word(value[0], value[1]) % 2048 && enabled == Word(value[2], value[3]) % 2048
    else supported == 0 && enabled == 0
  }

  // The addresses of all TLVs of kind 8 that hold one.
  ghost predicate AddressesFrom(ts: seq<Tlv>, n: Neighbor) {
    forall id :: id in n.addresses <==> id != NoIdent && exists t :: t in ts && t.kind == 8 && id == DecodeManagementAddress(t.value)
  }

  ghost predicate ReadFrom(trim: Trimming, ts: seq<Tlv>, n: Neighbor) {
    IdentifiersFrom(trim, ts, n) && TextsFrom(trim, ts, n) && TtlFrom(ts, n) && CapabilitiesFrom(ts, n) && AddressesFrom(ts, n)
  }

  lemma LastOne(ts: seq<Tlv>, kind: nat)
    requires ts != []
    ensures var front, last := ts[..|ts| - 1], |ts| - 1;
            if ts[last].kind == kind then forall p :: IsLast(ts, kind, p) <==> p == last
            else (Lacks(ts, kind) <==> Lacks(front, kind)) && forall p :: IsLast(ts, kind, p) <==> IsLast(front, kind, p)
  {
    var front, last := ts[..|ts| - 1], |ts| - 1;
    if ts[last].kind != kind {
      forall p ensures IsLast(ts, kind, p) <==> IsLast(front, kind, p) {
        if IsLast(ts, kind, p) {
          forall q | p < q < |front| ensures front[q].kind != kind { assert ts[q].kind != kind; }
        }
      }
    } else {
      assert ts[last] in ts;
    }
  }

  lemma LastTtl(ts: seq<Tlv>)
    requires ts != []
    ensures var front, last := ts[..|ts| - 1], |ts| - 1;
            if IsTtl(ts[last]) then forall p :: IsLastTtl(ts, p) <==> p == last
            else forall p :: IsLastTtl(ts, p) <==> IsLastTtl(front, p)
  {
    var front, last := ts[..|ts| - 1], |ts| - 1;
    if !IsTtl(ts[last]) {
      forall p ensures IsLastTtl(ts, p) <==> IsLastTtl(front, p) {
        if IsLastTtl(ts, p) {
          forall q | p < q < |front| ensures !IsTtl(front[q]) { assert !IsTtl(ts[q]); }
        }
      }
    }
  }

  lemma NextIdentifiers(trim: Trimming, ts: seq<Tlv>, n: Neighbor)
    requires ts != [] && IdentifiersFrom(trim, ts[..|ts| - 1], n)
    ensures IdentifiersFrom(trim, ts, Take(trim, n, ts[|ts| - 1]))
  {
    hide DecodeIdentifier, DecodeCapabilities, DecodeManagementAddress, Word, Lacks;
    LastOne(ts, 1);
    LastOne(ts, 2);
    LacksLast(ts);
  }

  lemma LacksLast(ts: seq<Tlv>)
    requires ts != []
    ensures !Lacks(ts, ts[|ts| - 1].kind)
  {
    assert ts[|ts| - 1] in ts;
  }

  lemma NextTexts(trim: Trimming, ts: seq<Tlv>, n: Neighbor)
    requires ts != [] && TextsFrom(trim, ts[..|ts| - 1], n)
    ensures TextsFrom(trim, ts, Take(trim, n, ts[|ts| - 1]))
  {
    hide DecodeIdentifier, DecodeCapabilities, DecodeManagementAddress, Word, Lacks;
    LastOne(ts, 4);
    LastOne(ts, 5);
    LastOne(ts, 6);
    LacksLast(ts);
  }

  lemma NextTtl(trim: Trimming, ts: seq<Tlv>, n: Neighbor)
    requires ts != [] && TtlFrom(ts[..|ts| - 1], n)
    ensures TtlFrom(ts, Take(trim, n, ts[|ts| - 1]))
  {
    hide DecodeIdentifier, DecodeManagementAddress, DecodeCapabilities, Word;
    LastTtl(ts);
    var front, last, after := ts[..|ts| - 1], ts[|ts| - 1], Take(trim, n, ts[|ts| - 1]);
    if IsTtl(last) {
      assert IsLastTtl(ts, |ts| - 1);
    } else {
      assert after.ttl == n.ttl;
      assert (exists p :: IsLastTtl(front, p)) <==> exists p :: IsLastTtl(ts, p);
    }
  }

  lemma NextCapabilities(trim: Trimming, ts: seq<Tlv>, n: Neighbor)
    requires ts != [] && CapabilitiesFrom(ts[..|ts| - 1], n)
    ensures CapabilitiesFrom(ts, Take(trim, n, ts[|ts| - 1]))
  {
    hide DecodeIdentifier, DecodeManagementAddress, Word, Lacks, AreCapabilities, DecodeCapabilities;
    LastOne(ts, 7);
    LacksLast(ts);
    CapabilitiesDecoded(ts[|ts| - 1].value);
  }

  lemma CapabilitiesDecoded(value: Bytes)
    ensures var (supported, enabled) := DecodeCapabilities(value); AreCapabilities(value, supported, enabled)
  {
  }

  lemma NextAddresses(trim: Trimming, ts: seq<Tlv>, n: Neighbor)
    requires ts != [] && AddressesFrom(ts[..|ts| - 1], n)
    ensures AddressesFrom(ts, Take(trim, n, ts[|ts| - 1]))
  {
    hide DecodeIdentifier, DecodeManagementAddress, DecodeCapabilities, Word;
    assert forall t :: t in ts <==> t in ts[..|ts| - 1] || t == ts[|ts| - 1];
  }

  lemma TakeLast(trim: Trimming, b: Neighbor, ts: seq<Tlv>)
    requires ts != []
    ensures TakeAll(trim, b, ts) == Take(trim, TakeAll(trim, b, ts[..|ts| - 1]), ts[|ts| - 1])
  {
    var front, last := ts[..|ts| - 1], [ts[|ts| - 1]];
    assert ts == front + last;
    TakeInTurn(trim, b, front, last);
    assert TakeAll(trim, Take(trim, TakeAll(trim, b, front), last[0]), last[1..]) == TakeAll(trim, TakeAll(trim, b, front), last);
  }

  // Main result: where each field of the record comes from, for any sequence of TLVs.
  lemma {:induction false} RecordReadFrom(trim: Trimming, ts: seq<Tlv>, destination: Bytes, source: Bytes)
    ensures var n := TakeAll(trim, Blank(destination, source), ts);
            ReadFrom(trim, ts, n) && n.destination == destination && n.source == source
  {
    hide IdentifiersFrom, TextsFrom, TtlFrom, CapabilitiesFrom, AddressesFrom;
    if ts == [] {
      NothingRead(trim, Blank(destination, source));
    } else {
      var front := ts[..|ts| - 1];
      var before := TakeAll(trim, Blank(destination, source), front);
      RecordReadFrom(trim, front, destination, source);
      TakeLast(trim, Blank(destination, source), ts);
      NextIdentifiers(trim, ts, before);
      NextTexts(trim, ts, before);
      NextTtl(trim, ts, before);
      NextCapabilities(trim, ts, before);
      NextAddresses(trim, ts, before);
    }
  }

  lemma NothingRead(trim: Trimming, n: Neighbor)
    requires n == Blank(n.destination, n.source)
    ensures ReadFrom(trim, [], n)
  {
  }

  predicate Usable(n: Neighbor) {
    !Empty(n.chassisId) && !Empty(n.portId) && n.ttl > 0
  }

  // ---- The parser ----

  predicate IsLldp(frame: Bytes) {
    |frame| >= 14 && Word(frame[12], frame[13]) == 0x88CC
  }

  function Parsed(trim: Trimming, frame: Bytes): Option<Neighbor> {
    if !IsLldp(frame) || Split(frame[14..]).None? then None
    else
      var n := TakeAll(trim, Blank(frame[..6], frame[6..12]), Split(frame[14..]).value);
      if Usable(n) then Some(n) else None
  }

  // The record after the rest of the payload; None when a TLV overruns it.
  function ReadRest(trim: Trimming, n: Neighbor, p: Bytes): Option<Neighbor> {
    if Split(p).None? then None else Some(TakeAll(trim, n, Split(p).value))
  }

  // One turn of the loop, and the three ways it ends.
  lemma ReadOne(trim: Trimming, n: Neighbor, p: Bytes)
    ensures |p| < 2 ==> ReadRest(trim, n, p) == Some(n)
    ensures |p| >= 2 && 2 + Length(p) > |p| ==> ReadRest(trim, n, p) == None
    ensures |p| >= 2 && 2 + Length(p) <= |p| && Kind(p) == 0 ==> ReadRest(trim, n, p) == Some(n)
    ensures |p| >= 2 && 2 + Length(p) <= |p| && Kind(p) != 0 ==>
              ReadRest(trim, n, p) == ReadRest(trim, Take(trim, n, Tlv(Kind(p), p[2..2 + Length(p)])), p[2 + Length(p)..])
  {
    hide Take;
    if |p| >= 2 && 2 + Length(p) <= |p| && Kind(p) != 0 && Split(p).Some? {
      assert Split(p).value[1..] == Split(p[2 + Length(p)..]).value;
    }
  }

  lemma ParsedIsRead(trim: Trimming, frame: Bytes)
    ensures Parsed(trim, frame).Some? ==>
              var n := Parsed(trim, frame).value;
              && n.destination == frame[..6] && n.source == frame[6..12] && frame[12] == 0x88 && frame[13] == 0xCC
              && (exists ts :: Split(frame[14..]) == Some(ts) && ReadFrom(trim, ts, n))
              && n.chassisId !in {NoIdent, Text([])} && n.portId !in {NoIdent, Text([])} && n.ttl > 0
  {
    hide Split, ReadFrom, TakeAll;
    if Parsed(trim, frame).Some? {
      var ts := Split(frame[14..]).value;
      RecordReadFrom(trim, ts, frame[..6], frame[6..12]);
    }
  }

  method ParseFrame(trim: Trimming, frame: Bytes) returns (result: Neighbor, valid: bool)
    ensures valid <==> Parsed(trim, frame).Some?
    ensures valid ==> Parsed(trim, frame) == Some(result)
    ensures valid ==> result.destination == frame[..6] && result.source == frame[6..12] && frame[12] == 0x88 && frame[13] == 0xCC
    ensures valid ==> exists ts :: Split(frame[14..]) == Some(ts) && ReadFrom(trim, ts, result)
    ensures valid ==> result.chassisId !in {NoIdent, Text([])} && result.portId !in {NoIdent, Text([])} && result.ttl > 0
  {
    ParsedIsRead(trim, frame);
    hide Take, Usable, Split, TakeAll, Kind, Length, ReadFrom;
    result := Blank([], []);
    if |frame| < 14 || Word(frame[12], frame[13]) != 0x88CC {
      return result, false;
    }
    result := Blank(frame[..6], frame[6..12]);
    var payload := frame[14..];
    var offset := 0;
    ghost var start := result;
    assert payload[0..] == payload;
    while offset + 2 <= |payload|
      invariant 0 <= offset <= |payload|
      invariant ReadRest(trim, start, payload) == ReadRest(trim, result, payload[offset..])
      decreases |payload| - offset
    {
      var header := Word(payload[offset], payload[offset + 1]);
      ghost var rest := payload[offset..];
      assert rest[0] == payload[offset] && rest[1] == payload[offset + 1];
      HeaderWord(rest);
      ReadOne(trim, result, rest);
      offset := offset + 2;
      var kind, length := header / 512, header % 512;
      if offset + length > |payload| {
        return Blank([], []), false;
      }
      var value := payload[offset..offset + length];
      assert value == rest[2..2 + length] && payload[offset + length..] == rest[2 + length..];
      offset := offset + length;
      if kind == 0 {
        offset := |payload|;
        ReadOne(trim, result, payload[offset..]);
      } else {
        result := Take(trim, result, Tlv(kind, value));
      }
    }
    ReadOne(trim, result, payload[offset..]);
    valid := Usable(result);
  }

  // ---- Encoding a record ----

  // Text that the parser keeps as it is.
  ghost predicate PlainText(trim: Trimming, text: Bytes) {
    |text| < 511 && trim(text) == text
  }

  // An address that its own encoding decodes to.
  predicate ProperAddress(id: Ident) {
    match id
    case Ip(ip) => |ip| == 4 || |ip| == 16
    case Typed(family, address) => 1 <= |address| <= 254 && !(family == 1 && |address| == 4) && !(family == 2 && |address| == 16)
    case _ => false
  }

  function EncodeAddress(id: Ident): Bytes
    requires ProperAddress(id)
  {
    match id
    case Ip(ip) => [if |ip| == 4 then 1 else 2] + ip
    case Typed(family, address) => [family] + address
  }

  lemma AddressRoundTrip(id: Ident)
    requires ProperAddress(id)
    ensures 2 <= |EncodeAddress(id)| <= 255 && DecodeNetworkAddress(EncodeAddress(id)) == id
  {
    var value := EncodeAddress(id);
    match id
    case Ip(ip) => assert value[1..] == ip;
    case Typed(family, address) => assert value[1..] == address;
  }

  // An identifier of this subtype: a MAC or an address where the subtype says so, else text.
  ghost predicate ProperIdentifier(trim: Trimming, chassis: bool, code: Byte, id: Ident) {
    match id
    case Mac(mac) => code == (if chassis then 4 else 3) && |mac| == 6
    case Ip(_) => code == (if chassis then 5 else 4) && ProperAddress(id)
    case Typed(_, _) => code == (if chassis then 5 else 4) && ProperAddress(id)
    case Text(text) =>
      && PlainText(trim, text) && text != []
      && (|text| == 6 ==> code != if chassis then 4 else 3) && (|text| >= 2 ==> code != if chassis then 5 else 4)
    case NoIdent => false
  }

  function EncodeIdentifier(code: Byte, id: Ident): Bytes {
    match id
    case Mac(mac) => [code] + mac
    case Text(text) => [code] + text
    case NoIdent => []
    case _ => if ProperAddress(id) then [code] + EncodeAddress(id) else []
  }

  lemma IdentifierRoundTrip(trim: Trimming, chassis: bool, code: Byte, id: Ident)
    requires ProperIdentifier(trim, chassis, code, id)
    ensures 2 <= |EncodeIdentifier(code, id)| < 512
    ensures DecodeIdentifier(trim, EncodeIdentifier(code, id), chassis) == (Some(code), id)
  {
    var value := EncodeIdentifier(code, id);
    match id
    case Mac(mac) => assert value[1..] == mac;
    case Text(text) => assert value[1..] == text;
    case Ip(_) => AddressRoundTrip(id); assert value[1..] == EncodeAddress(id);
    case Typed(_, _) => AddressRoundTrip(id); assert value[1..] == EncodeAddress(id);
  }

  // The management address TLV: the length of family and address, then both, then whatever numbering follows.
  function EncodeManagement(id: Ident): Bytes
    requires ProperAddress(id) && |EncodeAddress(id)| <= 255
  {
    [|EncodeAddress(id)| as Byte] + EncodeAddress(id)
  }

  lemma ManagementRoundTrip(id: Ident)
    requires ProperAddress(id)
    ensures |EncodeAddress(id)| <= 255 && |EncodeManagement(id)| < 512 && DecodeManagementAddress(EncodeManagement(id)) == id
  {
    AddressRoundTrip(id);
    var value := EncodeManagement(id);
    assert value[1..1 + value[0] as int] == EncodeAddress(id);
  }

  ghost predicate WellFormed(trim: Trimming, n: Neighbor) {
    && |n.destination| == 6 && |n.source| == 6
    && n.chassisSubtype.Some? && ProperIdentifier(trim, true, n.chassisSubtype.value, n.chassisId)
    && n.portSubtype.Some? && ProperIdentifier(trim, false, n.portSubtype.value, n.portId)
    && 0 < n.ttl < 65536
    && PlainText(trim, n.portDescription) && PlainText(trim, n.systemName) && PlainText(trim, n.systemDescription)
    && n.supported < 2048 && n.enabled < 2048
    && forall i :: 0 <= i < |n.addresses| ==> ProperAddress(n.addresses[i])
  }

  function Addresses(ids: seq<Ident>): seq<Tlv>
    requires forall i :: 0 <= i < |ids| ==> ProperAddress(ids[i]) && |EncodeAddress(ids[i])| <= 255
  {
    if ids == [] then [] else [Tlv(8, EncodeManagement(ids[0]))] + Addresses(ids[1..])
  }

  ghost function ToTlvs(trim: Trimming, n: Neighbor): seq<Tlv>
    requires WellFormed(trim, n) && forall i :: 0 <= i < |n.addresses| ==> |EncodeAddress(n.addresses[i])| <= 255
  {
    [Tlv(1, EncodeIdentifier(n.chassisSubtype.value, n.chassisId)), Tlv(2, EncodeIdentifier(n.portSubtype.value, n.portId)),
     Tlv(3, WordBytes(n.ttl)), Tlv(4, n.portDescription), Tlv(5, n.systemName), Tlv(6, n.systemDescription),
     Tlv(7, WordBytes(n.supported) + WordBytes(n.enabled))] + Addresses(n.addresses)
  }

  lemma AddressLengths(ids: seq<Ident>)
    requires forall i :: 0 <= i < |ids| ==> ProperAddress(ids[i])
    ensures forall i :: 0 <= i < |ids| ==> |EncodeAddress(ids[i])| <= 255
  {
    forall i | 0 <= i < |ids| ensures |EncodeAddress(ids[i])| <= 255 { AddressRoundTrip(ids[i]); }
  }

  lemma TakeManagement(trim: Trimming, n: Neighbor, id: Ident)
    requires ProperAddress(id) && |EncodeAddress(id)| <= 255
    ensures Take(trim, n, Tlv(8, EncodeManagement(id))) == n.(addresses := n.addresses + [id])
  {
    ManagementRoundTrip(id);
  }

  lemma FirstAddress(ids: seq<Ident>)
    requires ids != [] && forall i :: 0 <= i < |ids| ==> ProperAddress(ids[i]) && |EncodeAddress(ids[i])| <= 255
    ensures Addresses(ids) == [Tlv(8, EncodeManagement(ids[0]))] + Addresses(ids[1..])
  {
    hide EncodeManagement, EncodeAddress, ProperAddress;
  }

  lemma {:induction false} AddressesEncodable(ids: seq<Ident>)
    requires forall i :: 0 <= i < |ids| ==> ProperAddress(ids[i]) && |EncodeAddress(ids[i])| <= 255
    ensures AllEncodable(Addresses(ids))
  {
    hide EncodeManagement, EncodeAddress, ProperAddress, Encodable;
    if ids != [] {
      ManagementEncodable(ids[0]);
      AddressesEncodable(ids[1..]);
      FirstAddress(ids);
    }
  }

  lemma ManagementEncodable(id: Ident)
    requires ProperAddress(id) && |EncodeAddress(id)| <= 255
    ensures Encodable(Tlv(8, EncodeManagement(id)))
  {
    ManagementRoundTrip(id);
  }

  lemma TakeFirst(trim: Trimming, n: Neighbor, t: Tlv, ts: seq<Tlv>)
    ensures TakeAll(trim, n, [t] + ts) == TakeAll(trim, Take(trim, n, t), ts)
  {
    hide Take;
    assert ([t] + ts)[1..] == ts;
  }

  lemma MoreAddresses(n: Neighbor, ids: seq<Ident>)
    requires ids != []
    ensures var next := n.(addresses := n.addresses + [ids[0]]); next.(addresses := next.addresses + ids[1..]) == n.(addresses := n.addresses + ids)
  {
    assert n.addresses + [ids[0]] + ids[1..] == n.addresses + ids;
  }

  lemma {:induction false} TakeAddresses(trim: Trimming, n: Neighbor, ids: seq<Ident>)
    requires forall i :: 0 <= i < |ids| ==> ProperAddress(ids[i]) && |EncodeAddress(ids[i])| <= 255
    ensures TakeAll(trim, n, Addresses(ids)) == n.(addresses := n.addresses + ids)
    decreases |ids|
  {
    if ids == [] {
      assert n.addresses + ids == n.addresses;
    } else {
      hide EncodeManagement, EncodeAddress, ProperAddress, Take, TakeAll, Addresses;
      var t, next := Tlv(8, EncodeManagement(ids[0])), n.(addresses := n.addresses + [ids[0]]);
      TakeManagement(trim, n, ids[0]);
      FirstAddress(ids);
      TakeFirst(trim, n, t, Addresses(ids[1..]));
      TakeAddresses(trim, next, ids[1..]);
      MoreAddresses(n, ids);
    }
  }

  lemma {:induction false} TakeInTurn(trim: Trimming, n: Neighbor, first: seq<Tlv>, second: seq<Tlv>)
    ensures TakeAll(trim, n, first + second) == TakeAll(trim, TakeAll(trim, n, first), second)
    decreases |first|
  {
    if first == [] {
      assert first + second == second;
    } else {
      assert (first + second)[1..] == first[1..] + second;
      TakeInTurn(trim, Take(trim, n, first[0]), first[1..], second);
    }
  }

  lemma TakeIdentifiers(trim: Trimming, n: Neighbor, b: Neighbor)
    requires WellFormed(trim, n)
    ensures var one := Take(trim, b, Tlv(1, EncodeIdentifier(n.chassisSubtype.value, n.chassisId)));
            Take(trim, one, Tlv(2, EncodeIdentifier(n.portSubtype.value, n.portId)))
            == b.(chassisSubtype := n.chassisSubtype, chassisId := n.chassisId, portSubtype := n.portSubtype, portId := n.portId)
  {
    IdentifierRoundTrip(trim, true, n.chassisSubtype.value, n.chassisId);
    IdentifierRoundTrip(trim, false, n.portSubtype.value, n.portId);
  }

  lemma TakeTexts(trim: Trimming, n: Neighbor, b: Neighbor)
    requires WellFormed(trim, n)
    ensures Take(trim, Take(trim, Take(trim, b, Tlv(4, n.portDescription)), Tlv(5, n.systemName)), Tlv(6, n.systemDescription))
            == b.(portDescription := n.portDescription, systemName := n.systemName, systemDescription := n.systemDescription)
  {
  }

  lemma TakeTtl(trim: Trimming, n: Neighbor, b: Neighbor)
    requires WellFormed(trim, n)
    ensures Take(trim, b, Tlv(3, WordBytes(n.ttl))) == b.(ttl := n.ttl)
  {
    WordRoundTrip(n.ttl);
  }

  lemma TakeCapabilities(trim: Trimming, b: Neighbor, supported: nat, enabled: nat)
    requires supported < 2048 && enabled < 2048
    ensures Take(trim, b, Tlv(7, WordBytes(supported) + WordBytes(enabled))) == b.(supported := supported, enabled := enabled)
  {
    WordRoundTrip(supported);
    WordRoundTrip(enabled);
    FourBytes(WordBytes(supported), WordBytes(enabled));
    LowBits(supported);
    LowBits(enabled);
  }

  lemma FourBytes(a: Bytes, b: Bytes)
    requires |a| == 2 && |b| == 2
    ensures DecodeCapabilities(a + b) == (Word(a[0], a[1]) % 2048, Word(b[0], b[1]) % 2048)
  {
    var value := a + b;
    assert value[0] == a[0] && value[1] == a[1] && value[2] == b[0] && value[3] == b[1];
  }

  lemma LowBits(w: nat)
    requires w < 2048
    ensures w % 2048 == w
  {
  }

  lemma TakeRecord(trim: Trimming, n: Neighbor)
    requires WellFormed(trim, n) && forall i :: 0 <= i < |n.addresses| ==> |EncodeAddress(n.addresses[i])| <= 255
    ensures TakeAll(trim, Blank(n.destination, n.source), ToTlvs(trim, n)) == n
  {
    var b0 := Blank(n.destination, n.source);
    var ts := ToTlvs(trim, n)[..7];
    assert ToTlvs(trim, n) == ts + Addresses(n.addresses);
    TakeInTurn(trim, b0, ts, Addresses(n.addresses));
    var b2 := Take(trim, Take(trim, b0, ts[0]), ts[1]);
    TakeIdentifiers(trim, n, b0);
    var b3 := Take(trim, b2, ts[2]);
    TakeTtl(trim, n, b2);
    var b6 := Take(trim, Take(trim, Take(trim, b3, ts[3]), ts[4]), ts[5]);
    TakeTexts(trim, n, b3);
    var b7 := Take(trim, b6, ts[6]);
    TakeCapabilities(trim, b6, n.supported, n.enabled);
    SevenSteps(trim, b0, ts);
    TakeAddresses(trim, b7, n.addresses);
    assert b7.addresses + n.addresses == n.addresses;
  }

  lemma SevenSteps(trim: Trimming, b: Neighbor, ts: seq<Tlv>)
    requires |ts| == 7
    ensures TakeAll(trim, b, ts) ==
            Take(trim, Take(trim, Take(trim, Take(trim, Take(trim, Take(trim, Take(trim, b, ts[0]), ts[1]), ts[2]), ts[3]), ts[4]), ts[5]), ts[6])
  {
    var b3 := Take(trim, Take(trim, Take(trim, b, ts[0]), ts[1]), ts[2]);
    ThreeSteps(trim, b, ts);
    ThreeSteps(trim, b3, ts[3..]);
    assert ts[3..][3..] == [ts[6]];
    var b6 := Take(trim, Take(trim, Take(trim, b3, ts[3]), ts[4]), ts[5]);
    assert TakeAll(trim, b6, [ts[6]]) == Take(trim, b6, ts[6]);
  }

  lemma ThreeSteps(trim: Trimming, b: Neighbor, ts: seq<Tlv>)
    requires |ts| >= 3
    ensures TakeAll(trim, b, ts) == TakeAll(trim, Take(trim, Take(trim, Take(trim, b, ts[0]), ts[1]), ts[2]), ts[3..])
  {
    assert ts[1..][1..] == ts[2..] && ts[2..][1..] == ts[3..];
    assert TakeAll(trim, b, ts) == TakeAll(trim, Take(trim, b, ts[0]), ts[1..]);
    assert TakeAll(trim, Take(trim, b, ts[0]), ts[1..]) == TakeAll(trim, Take(trim, Take(trim, b, ts[0]), ts[1]), ts[2..]);
  }

  lemma RecordIsEncodable(trim: Trimming, n: Neighbor)
    requires WellFormed(trim, n) && forall i :: 0 <= i < |n.addresses| ==> |EncodeAddress(n.addresses[i])| <= 255
    ensures AllEncodable(ToTlvs(trim, n))
  {
    IdentifierRoundTrip(trim, true, n.chassisSubtype.value, n.chassisId);
    IdentifierRoundTrip(trim, false, n.portSubtype.value, n.portId);
    hide EncodeIdentifier, EncodeAddress, EncodeManagement, Addresses, ProperAddress, ProperIdentifier;
    AddressesEncodable(n.addresses);
  }

  // The frame of a record: Ethernet header, TLVs, End TLV.
  ghost function EncodeFrame(trim: Trimming, n: Neighbor): Bytes
    requires WellFormed(trim, n) && (forall i :: 0 <= i < |n.addresses| ==> |EncodeAddress(n.addresses[i])| <= 255) && AllEncodable(ToTlvs(trim, n))
  {
    n.destination + n.source + [0x88, 0xCC] + EncodeAll(ToTlvs(trim, n)) + End
  }

  // Main result: parsing the encoding of any well-formed neighbour record, whatever bytes follow it, returns the record.
  lemma RecordRoundTrip(trim: Trimming, n: Neighbor, junk: Bytes)
    requires WellFormed(trim, n)
    ensures (forall i :: 0 <= i < |n.addresses| ==> |EncodeAddress(n.addresses[i])| <= 255) && AllEncodable(ToTlvs(trim, n))
    ensures Parsed(trim, EncodeFrame(trim, n) + junk) == Some(n)
  {
    hide ToTlvs, EncodeAll, Split, TakeAll;
    AddressLengths(n.addresses);
    RecordIsEncodable(trim, n);
    var frame, body := EncodeFrame(trim, n) + junk, EncodeAll(ToTlvs(trim, n)) + (End + junk);
    FrameParts(n.destination, n.source, body);
    assert frame == n.destination + n.source + [0x88, 0xCC] + body;
    EndIgnoresTheRest(ToTlvs(trim, n), junk);
    TakeRecord(trim, n);
  }

  lemma FrameParts(destination: Bytes, source: Bytes, body: Bytes)
    requires |destination| == 6 && |source| == 6
    ensures var frame := destination + source + [0x88, 0xCC] + body;
            IsLldp(frame) && frame[14..] == body && frame[..6] == destination && frame[6..12] == source
  {
  }
}
