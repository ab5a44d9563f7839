/** Protocol and port permissions of a packet grant: how raw texts are normalized, and how
    normalized texts are read back. */
module Permissions {
  import opened Net
  import opened Text

  datatype PortRange = PortRange(first: nat, last: nat)

  datatype Permission = AnyProtocol | Protocol(number: nat, ports: Option<PortRange>)

  const TSMP: nat := 99

  /** The packets a permission lets through. */
  predicate Permits(p: Permission, proto: nat, port: nat) {
    match p
    case AnyProtocol => 1 <= proto < 255 && proto != TSMP && port <= 65535
    case Protocol(n, None) => proto == n && port <= 65535
    case Protocol(n, Some(r)) => proto == n && r.first <= port <= r.last
  }

  datatype Named = Named(number: nat, canonical: string, portBearing: bool)

  function NamedProtocol(raw: string): Option<Named> {
    if raw == "icmp" then Some(Named(1, "icmp", false))
    else if raw == "igmp" then Some(Named(2, "igmp", false))
    else if raw == "ipv4" then Some(Named(4, "ipv4", false))
    else if raw == "ip-in-ip" then Some(Named(4, "ipv4", false))
    else if raw == "tcp" then Some(Named(6, "tcp", true))
    else if raw == "egp" then Some(Named(8, "egp", false))
    else if raw == "igp" then Some(Named(9, "igp", false))
    else if raw == "udp" then Some(Named(17, "udp", true))
    else if raw == "dccp" then Some(Named(33, "dccp", false))
    else if raw == "gre" then Some(Named(47, "gre", false))
    else if raw == "esp" then Some(Named(50, "esp", false))
    else if raw == "ah" then Some(Named(51, "ah", false))
    else if raw == "ipv6-icmp" then Some(Named(58, "ipv6-icmp", false))
    else if raw == "sctp" then Some(Named(132, "sctp", true))
    else None
  }

  function CanonicalProtocol(n: nat): Option<Named> {
    if n == 1 then Some(Named(1, "icmp", false))
    else if n == 2 then Some(Named(2, "igmp", false))
    else if n == 4 then Some(Named(4, "ipv4", false))
    else if n == 6 then Some(Named(6, "tcp", true))
    else if n == 8 then Some(Named(8, "egp", false))
    else if n == 9 then Some(Named(9, "igp", false))
    else if n == 17 then Some(Named(17, "udp", true))
    else if n == 33 then Some(Named(33, "dccp", false))
    else if n == 47 then Some(Named(47, "gre", false))
    else if n == 50 then Some(Named(50, "esp", false))
    else if n == 51 then Some(Named(51, "ah", false))
    else if n == 58 then Some(Named(58, "ipv6-icmp", false))
    else if n == 132 then Some(Named(132, "sctp", true))
    else None
  }

  datatype ProtocolName = ProtocolName(name: string, portBearing: bool)

  function NormalizeProtocol(raw: string): Option<ProtocolName> {
    var named := NamedProtocol(raw);
    if named.Some? then Some(ProtocolName(named.value.canonical, named.value.portBearing))
    else
      var n := ParseUint(raw, 255);
      if n.None? || n.value == 0 || n.value == TSMP || n.value == 255 then None
      else
        var known := CanonicalProtocol(n.value);
        if known.Some? then Some(ProtocolName(known.value.canonical, known.value.portBearing))
        else Some(ProtocolName(FormatUint(n.value), false))
  }

  function NormalizePortRange(raw: string): Option<string> {
    if ',' in raw then None
    else
      var parts := Cut(raw, '-');
      if parts.before == "" || (parts.found && parts.after == "") || (parts.found && '-' in parts.after) then None
      else
        var first := ParseUint(parts.before, 65535);
        var last := if parts.found then ParseUint(parts.after, 65535) else first;
        if first.None? || last.None? || last.value < first.value then None
        else if first.value == last.value then Some(FormatUint(first.value))
        else Some(FormatUint(first.value) + "-" + FormatUint(last.value))
  }

  function NormalizePermission(raw: string): Option<seq<string>> {
    if raw == "" || !Trimmed(raw) || !LowerCase(raw) then None
    else if raw == "*" then Some(["*"])
    else
      var parts := Cut(raw, ':');
      if !parts.found then
        var ports := NormalizePortRange(raw);
        if ports.None? then None else Some(["tcp:" + ports.value, "udp:" + ports.value])
      else if parts.before == "" || parts.after == "" || ':' in parts.after then None
      else
        var proto := NormalizeProtocol(parts.before);
        if proto.None? then None
        else if parts.after == "*" then Some([proto.value.name + ":*"])
        else if !proto.value.portBearing then None
        else
          var ports := NormalizePortRange(parts.after);
          if ports.None? then None else Some([proto.value.name + ":" + ports.value])
  }

  function ParsePermission(value: string): Option<Permission> {
    if value == "*" then Some(AnyProtocol)
    else
      var parts := Cut(value, ':');
      if !parts.found then None
      else
        var proto := NormalizeProtocol(parts.before);
        if proto.None? || proto.value.name != parts.before then None
        else
          var named := NamedProtocol(proto.value.name);
          var number := if named.Some? then Some(named.value.number) else ParseUint(proto.value.name, 255);
          if number.None? then None
          else if parts.after == "*" then Some(Protocol(number.value, None))
          else if !proto.value.portBearing then None
          else
            var range := Cut(parts.after, '-');
            var first := ParseUint(range.before, 65535);
            var last := if range.found then ParseUint(range.after, 65535) else first;
            if first.None? || last.None? then None
            else Some(Protocol(number.value, Some(PortRange(first.value, last.value))))
  }

  // What a raw permission means, read without printing anything

  datatype ProtocolNumber = ProtocolNumber(number: nat, portBearing: bool)

  /** A protocol is named, or given by any number but 0, 99 and 255; ports go with TCP, UDP and SCTP. */
  function ReadProtocol(raw: string): Option<ProtocolNumber> {
    var named := NamedProtocol(raw);
    if named.Some? then Some(ProtocolNumber(named.value.number, named.value.number in {6, 17, 132}))
    else
      var n := ParseUint(raw, 255);
      if n.None? || n.value in {0, TSMP, 255} then None
      else Some(ProtocolNumber(n.value, n.value in {6, 17, 132}))
  }

  function ReadPortRange(raw: string): Option<PortRange> {
    var parts := Cut(raw, '-');
    var first := ParseUint(parts.before, 65535);
    var last := if parts.found then ParseUint(parts.after, 65535) else first;
    if first.None? || last.None? || last.value < first.value then None
    else Some(PortRange(first.value, last.value))
  }

  /** The permissions a raw text stands for: a bare port range stands for TCP and UDP. */
  function ReadPermission(raw: string): Option<seq<Permission>> {
    if raw == "*" then Some([AnyProtocol])
    else
      var parts := Cut(raw, ':');
      if !parts.found then
        var ports := ReadPortRange(raw);
        if ports.None? then None else Some([Protocol(6, ports), Protocol(17, ports)])
      else
        var proto := ReadProtocol(parts.before);
        if proto.None? then None
        else if parts.after == "*" then Some([Protocol(proto.value.number, None)])
        else if !proto.value.portBearing then None
        else
          var ports := ReadPortRange(parts.after);
          if ports.None? then None else Some([Protocol(proto.value.number, ports)])
  }

  // Characters

  predicate PlainChar(c: char) {
    'a' <= c <= 'z' || IsDigit(c) || c == '-'
  }

  predicate Plain(s: string) {
    s != [] && forall i :: 0 <= i < |s| ==> PlainChar(s[i])
  }

  lemma NamesArePlain(raw: string)
    requires NamedProtocol(raw).Some?
    ensures Plain(raw)
  {
  }

  lemma DigitsArePlain(s: string, max: nat)
    requires ParseUint(s, max).Some?
    ensures Plain(s) && '-' !in s && NamedProtocol(s).None?
  {
    assert NamedProtocol(s).Some? ==> !IsDigit(s[0]);
  }

  lemma FormatIsPlain(n: nat)
    ensures Plain(FormatUint(n)) && '-' !in FormatUint(n) && NamedProtocol(FormatUint(n)).None?
  {
    FormatDigits(n);
    ParseFormat(n, n);
    DigitsArePlain(FormatUint(n), n);
  }

  // Protocols

  lemma NamedIsCanonical(n: nat)
    requires CanonicalProtocol(n).Some?
    ensures var c := CanonicalProtocol(n).value;
            NamedProtocol(c.canonical) == Some(c) && c.number == n && (c.portBearing <==> n in {6, 17, 132})
  {
  }

  /** A normalized protocol is its own normal form and denotes the protocol that was written. */
  lemma ProtocolRoundTrip(raw: string)
    ensures NormalizeProtocol(raw).Some? <==> ReadProtocol(raw).Some?
    ensures NormalizeProtocol(raw).Some? ==>
      var p, r := NormalizeProtocol(raw).value, ReadProtocol(raw).value;
      && Plain(p.name)
      && NormalizeProtocol(p.name) == Some(p)
      && ReadProtocol(p.name) == Some(r)
      && p.portBearing == r.portBearing
      && (if NamedProtocol(p.name).Some? then NamedProtocol(p.name).value.number == r.number
          else ParseUint(p.name, 255) == Some(r.number))
  {
    if NormalizeProtocol(raw).Some? {
      var p := NormalizeProtocol(raw).value;
      if NamedProtocol(raw).None? {
        var n := ParseUint(raw, 255).value;
        if CanonicalProtocol(n).Some? {
          NamedIsCanonical(n);
        } else {
          FormatIsPlain(n);
          ParseFormat(n, 255);
        }
      }
      if NamedProtocol(p.name).Some? {
        NamesArePlain(p.name);
      }
    }
  }

  // Ports

  /** A normalized port range reads as the range that was written, and is its own normal form. */
  lemma PortRangeRoundTrip(raw: string)
    ensures NormalizePortRange(raw).Some? <==> ReadPortRange(raw).Some?
    ensures NormalizePortRange(raw).Some? ==>
      var t := NormalizePortRange(raw).value;
      && Plain(t)
      && ReadPortRange(t) == ReadPortRange(raw)
      && NormalizePortRange(t) == Some(t)
  {
    var parts := Cut(raw, '-');
    CutParts(raw, '-');
    if ReadPortRange(raw).Some? {
      DigitsArePlain(parts.before, 65535);
      if parts.found {
        DigitsArePlain(parts.after, 65535);
      }
      assert ',' !in raw;
      var r := ReadPortRange(raw).value;
      PrintedRange(r);
    }
  }

  lemma PrintedRange(r: PortRange)
    requires r.first <= r.last <= 65535
    ensures var t := if r.first == r.last then FormatUint(r.first) else FormatUint(r.first) + "-" + FormatUint(r.last);
            Plain(t) && ReadPortRange(t) == Some(r) && NormalizePortRange(t) == Some(t)
  {
    ParseFormat(r.first, 65535);
    ParseFormat(r.last, 65535);
    FormatIsPlain(r.first);
    FormatIsPlain(r.last);
    hide FormatUint, ParseUint;
    if r.first == r.last {
      CutNone(FormatUint(r.first), '-');
    } else {
      var t := FormatUint(r.first) + "-" + FormatUint(r.last);
      assert t == FormatUint(r.first) + ['-'] + FormatUint(r.last);
      CutJoined(FormatUint(r.first), '-', FormatUint(r.last));
    }
  }

  // Permissions

  predicate PermissionText(t: string) {
    t != [] && forall i :: 0 <= i < |t| ==> PlainChar(t[i]) || t[i] == ':' || t[i] == '*'
  }

  lemma TextChecks(t: string)
    requires PermissionText(t)
    ensures Trimmed(t) && LowerCase(t)
  {
  }

  /** `name:ports`, both in normal form, reads and normalizes as it should. */
  lemma ComposedPermission(name: string, tail: string)
    requires Plain(name) && NormalizeProtocol(name).Some? && NormalizeProtocol(name).value.name == name
    requires tail == "*" || (NormalizeProtocol(name).value.portBearing && Plain(tail)
                             && NormalizePortRange(tail) == Some(tail))
    ensures var t := name + ":" + tail;
            && PermissionText(t)
            && NormalizePermission(t) == Some([t])
            && ReadPermission(t) == Some([Protocol(ReadProtocol(name).value.number,
                                                   if tail == "*" then None else ReadPortRange(tail))])
            && ParsePermission(t) == Some(ReadPermission(t).value[0])
  {
    var t := name + ":" + tail;
    assert t == name + [':'] + tail;
    CutJoined(name, ':', tail);
    ProtocolRoundTrip(name);
    PortRangeRoundTrip(tail);
    TextChecks(t);
    assert t != "*" by {
      assert PlainChar(t[0]);
    }
    assert ':' !in tail;
    assert name + ":*" == name + ":" + "*";
    hide NamedProtocol, NormalizeProtocol, ReadProtocol, NormalizePortRange, ReadPortRange, Plain;
  }

  /** Every permission that is written in a form the grammar accepts normalizes to texts that read
      back as exactly the permissions written, and that normalization then leaves alone. */
  lemma PermissionRoundTrip(raw: string)
    ensures NormalizePermission(raw).Some? <==> ReadPermission(raw).Some?
    ensures NormalizePermission(raw).Some? ==>
      Agree(NormalizePermission(raw).value, ReadPermission(raw).value)
  {
    hide NamedProtocol, NormalizeProtocol, ReadProtocol, NormalizePortRange, ReadPortRange, Plain, PlainChar, Cut,
      Trimmed, LowerCase, PermissionText, ParsePermission;
    if raw == "*" {
      StarPermission();
    } else if Cut(raw, ':').found {
      ProtocolPermission(raw);
    } else {
      BarePortPermission(raw);
    }
  }

  lemma StarPermission()
    ensures NormalizePermission("*") == Some(["*"]) && ReadPermission("*") == Some([AnyProtocol])
    ensures PermissionText("*") && ParsePermission("*") == Some(AnyProtocol)
  {
  }

  /** Some text normalizes to `out` and means `meant`, and they agree. */
  ghost predicate Agree(out: seq<string>, meant: seq<Permission>) {
    && |out| == |meant|
    && forall i :: 0 <= i < |out| ==>
         && PermissionText(out[i])
         && ParsePermission(out[i]) == Some(meant[i])
         && NormalizePermission(out[i]) == Some([out[i]])
  }

  lemma BarePortPermission(raw: string)
    requires raw != "*" && !Cut(raw, ':').found
    ensures NormalizePermission(raw).Some? <==> ReadPermission(raw).Some?
    ensures NormalizePermission(raw).Some? ==> Agree(NormalizePermission(raw).value, ReadPermission(raw).value)
  {
    hide NamedProtocol, NormalizeProtocol, ReadProtocol, NormalizePortRange, ReadPortRange, Cut, ParsePermission,
      PermissionText, Trimmed, LowerCase;
    PortRangeRoundTrip(raw);
    if ReadPermission(raw).Some? {
      RawChecks(raw);
      BarePorts(NormalizePortRange(raw).value);
    }
  }

  lemma BarePorts(ports: string)
    requires Plain(ports) && ReadPortRange(ports).Some? && NormalizePortRange(ports) == Some(ports)
    ensures Agree(["tcp:" + ports, "udp:" + ports],
                  [Protocol(6, ReadPortRange(ports)), Protocol(17, ReadPortRange(ports))])
  {
    assert NormalizeProtocol("tcp") == Some(ProtocolName("tcp", true)) && ReadProtocol("tcp").value.number == 6;
    assert NormalizeProtocol("udp") == Some(ProtocolName("udp", true)) && ReadProtocol("udp").value.number == 17;
    assert Plain("tcp") && Plain("udp");
    assert ports != "*";
    assert "tcp:" + ports == "tcp" + ":" + ports && "udp:" + ports == "udp" + ":" + ports;
    hide NamedProtocol, NormalizeProtocol, ReadProtocol, NormalizePortRange, ReadPortRange, Cut, ParsePermission,
      PermissionText, NormalizePermission, ReadPermission;
    ComposedPermission("tcp", ports);
    ComposedPermission("udp", ports);
  }

  lemma ProtocolPermission(raw: string)
    requires raw != "*" && Cut(raw, ':').found
    ensures NormalizePermission(raw).Some? <==> ReadPermission(raw).Some?
    ensures NormalizePermission(raw).Some? ==> Agree(NormalizePermission(raw).value, ReadPermission(raw).value)
  {
    var parts := Cut(raw, ':');
    hide NamedProtocol, NormalizeProtocol, ReadProtocol, NormalizePortRange, ReadPortRange, Cut, ParsePermission,
      PermissionText;
    ProtocolRoundTrip(parts.before);
    PortRangeRoundTrip(parts.after);
    if ReadPermission(raw).Some? {
      RawChecks(raw);
      var name := NormalizeProtocol(parts.before).value.name;
      var tail := if parts.after == "*" then "*" else NormalizePortRange(parts.after).value;
      ComposedPermission(name, tail);
      assert name + ":*" == name + ":" + "*";
    }
  }

  lemma PortTextIsPlain(raw: string)
    requires ReadPortRange(raw).Some?
    ensures Plain(raw)
  {
    var parts := Cut(raw, '-');
    CutParts(raw, '-');
    DigitsArePlain(parts.before, 65535);
    if parts.found {
      DigitsArePlain(parts.after, 65535);
    }
  }

  lemma ProtocolTextIsPlain(raw: string)
    requires ReadProtocol(raw).Some?
    ensures Plain(raw)
  {
    if NamedProtocol(raw).Some? {
      NamesArePlain(raw);
    } else {
      DigitsArePlain(raw, 255);
    }
  }

  /** A readable permission passes the textual checks. */
  lemma RawChecks(raw: string)
    requires ReadPermission(raw).Some?
    ensures PermissionText(raw) && Trimmed(raw) && LowerCase(raw)
    ensures raw != "*" && Cut(raw, ':').found ==>
      Cut(raw, ':').before != "" && Cut(raw, ':').after != "" && ':' !in Cut(raw, ':').after
  {
    var parts := Cut(raw, ':');
    CutParts(raw, ':');
    if raw != "*" {
      if !parts.found {
        PortTextIsPlain(raw);
      } else {
        ProtocolTextIsPlain(parts.before);
        if parts.after != "*" {
          PortTextIsPlain(parts.after);
        }
        assert raw == parts.before + [':'] + parts.after;
      }
    }
    TextChecks(raw);
  }

  // What written permissions permit

  predicate PermissionTextAdmits(t: string, proto: nat, port: nat) {
    ReadPermission(t).Some? && exists p :: p in ReadPermission(t).value && Permits(p, proto, port)
  }

  /** `*` permits every protocol but 0, 99 and 255. */
  lemma StarPermits(proto: nat, port: nat)
    ensures PermissionTextAdmits("*", proto, port) <==> 1 <= proto <= 254 && proto != 99 && port <= 65535
  {
    StarPermission();
    assert AnyProtocol in ReadPermission("*").value;
  }

  /** The protocols that can be named, by their assigned numbers. */
  const PROTOCOLS: seq<(string, nat)> := [
    ("icmp", 1), ("igmp", 2), ("ipv4", 4), ("ip-in-ip", 4), ("tcp", 6), ("egp", 8), ("igp", 9), ("udp", 17),
    ("dccp", 33), ("gre", 47), ("esp", 50), ("ah", 51), ("ipv6-icmp", 58), ("sctp", 132)]

  lemma NameReads(name: string, n: nat)
    requires (name, n) in PROTOCOLS
    ensures ReadProtocol(name) == Some(ProtocolNumber(n, name in ["tcp", "udp", "sctp"]))
    ensures ':' !in name
  {
    NameNumbers(name, n);
    NamesArePlain(name);
    hide NamedProtocol;
  }

  lemma NameNumbers(name: string, n: nat)
    requires (name, n) in PROTOCOLS
    ensures NamedProtocol(name).Some? && NamedProtocol(name).value.number == n
    ensures n in {6, 17, 132} <==> name in ["tcp", "udp", "sctp"]
  {
  }

  /** A text `name:tail` permits what the two parts say. */
  lemma ProtocolTextPermits(name: string, tail: string, proto: nat, port: nat)
    requires ':' !in name
    ensures PermissionTextAdmits(name + ":" + tail, proto, port) <==>
      && ReadProtocol(name).Some? && proto == ReadProtocol(name).value.number
      && if tail == "*" then port <= 65535
         else ReadProtocol(name).value.portBearing && ReadPortRange(tail).Some?
              && ReadPortRange(tail).value.first <= port <= ReadPortRange(tail).value.last
  {
    var t := name + ":" + tail;
    assert t == name + [':'] + tail;
    CutJoined(name, ':', tail);
    assert t != "*";
    hide ReadProtocol, ReadPortRange, Cut;
    if ReadPermission(t).Some? {
      assert |ReadPermission(t).value| == 1;
      assert ReadPermission(t).value[0] in ReadPermission(t).value;
    }
  }

  /** `name:*` permits the protocol of that name, `n:*` that number, unless it is 0, 99 or above 254. */
  lemma ProtocolPermits(name: string, n: nat, proto: nat, port: nat)
    ensures (name, n) in PROTOCOLS ==> (PermissionTextAdmits(name + ":*", proto, port) <==> proto == n && port <= 65535)
    ensures PermissionTextAdmits(FormatUint(n) + ":*", proto, port) <==>
      proto == n && 1 <= n <= 254 && n != 99 && port <= 65535
  {
    assert name + ":" + "*" == name + ":*" && FormatUint(n) + ":" + "*" == FormatUint(n) + ":*";
    if (name, n) in PROTOCOLS {
      NameReads(name, n);
      ProtocolTextPermits(name, "*", proto, port);
    }
    NumberReads(n);
    ProtocolTextPermits(FormatUint(n), "*", proto, port);
  }

  lemma NumberReads(n: nat)
    ensures ReadProtocol(FormatUint(n)) ==
      if 1 <= n <= 254 && n != 99 then Some(ProtocolNumber(n, n in {6, 17, 132})) else None
    ensures ':' !in FormatUint(n)
  {
    FormatDigits(n);
    FormatIsPlain(n);
  }

  /** The printed range `first-last`. */
  function RangeText(first: nat, last: nat): string {
    FormatUint(first) + "-" + FormatUint(last)
  }

  lemma RangeReads(first: nat, last: nat)
    ensures ReadPortRange(RangeText(first, last)) ==
      if first <= last <= 65535 then Some(PortRange(first, last)) else None
    ensures ReadPortRange(FormatUint(first)) == if first <= 65535 then Some(PortRange(first, first)) else None
    ensures ':' !in RangeText(first, last) && RangeText(first, last) != "*"
  {
    FormatDigits(first);
    FormatDigits(last);
    FormatIsPlain(first);
    FormatIsPlain(last);
    CutNone(FormatUint(first), '-');
    assert RangeText(first, last) == FormatUint(first) + ['-'] + FormatUint(last);
    CutJoined(FormatUint(first), '-', FormatUint(last));
    hide FormatUint, DigitsValue;
  }

  /** Port ranges go with TCP, UDP and SCTP only, and a range without a protocol is for TCP and UDP. */
  lemma PortsPermit(name: string, n: nat, first: nat, last: nat, proto: nat, port: nat)
    requires (name, n) in PROTOCOLS
    ensures PermissionTextAdmits(name + ":" + RangeText(first, last), proto, port) <==>
      name in ["tcp", "udp", "sctp"] && proto == n && first <= port <= last <= 65535
    ensures PermissionTextAdmits(RangeText(first, last), proto, port) <==> proto in {6, 17} && first <= port <= last <= 65535
  {
    NameReads(name, n);
    RangeReads(first, last);
    ProtocolTextPermits(name, RangeText(first, last), proto, port);
    BareRangePermits(RangeText(first, last), proto, port);
  }

  lemma BareRangePermits(t: string, proto: nat, port: nat)
    requires ':' !in t && t != "*"
    ensures PermissionTextAdmits(t, proto, port) <==>
      proto in {6, 17} && ReadPortRange(t).Some? && ReadPortRange(t).value.first <= port <= ReadPortRange(t).value.last
  {
    CutNone(t, ':');
    hide ReadPortRange, Cut;
    if ReadPortRange(t).Some? {
      var ps := ReadPermission(t).value;
      assert ps == [Protocol(6, ReadPortRange(t)), Protocol(17, ReadPortRange(t))];
      assert ps[0] in ps && ps[1] in ps;
    }
  }
}
