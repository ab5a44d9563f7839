/** Resolving a SOCKS destination through a profile's resolver: aliases are followed inside a reply and
    over further queries, with one bound on both. */
module SocksLookup {
  import opened Net
  import PacketFilter
  import PacketFilterMeaning

  const MAX_HOPS := 8

  datatype Type = A | AAAA

  datatype Body = V4(addr: Addr) | V6(addr: Addr) | Alias(target: string) | Other

  datatype Answer = Answer(inet: bool, name: string, body: Body)

  /** A reply that unpacks: whether header and question are acceptable, and the answer section. */
  datatype Reply = Reply(wellFormed: bool, question: string, typ: Type, inet: bool, answers: seq<Answer>)

  /** Any resolver: its reply may depend on how many queries came before. */
  type Resolver = (nat, string, Type) -> Option<Reply>

  /** The name in lower case. */
  function Fold(name: string): string {
    seq(|name|, i requires 0 <= i < |name| => if 'A' <= name[i] <= 'Z' then (name[i] as int + 32) as char else name[i])
  }

  predicate EqualFold(a: string, b: string) {
    Fold(a) == Fold(b)
  }

  /** The names differ at most in the case of their letters. */
  predicate SameName(a: string, b: string) {
    |a| == |b| && forall i :: 0 <= i < |a| ==>
      a[i] == b[i] || ('A' <= a[i] <= 'Z' && b[i] as int == a[i] as int + 32) || ('A' <= b[i] <= 'Z' && a[i] as int == b[i] as int + 32)
  }

  lemma FoldsAlike(a: string, b: string)
    ensures EqualFold(a, b) <==> SameName(a, b)
  {
    if EqualFold(a, b) {
      assert |Fold(a)| == |a| && |Fold(b)| == |b|;
      forall i | 0 <= i < |a|
        ensures a[i] == b[i] || ('A' <= a[i] <= 'Z' && b[i] as int == a[i] as int + 32) || ('A' <= b[i] <= 'Z' && a[i] as int == b[i] as int + 32)
      {
        assert Fold(a)[i] == Fold(b)[i];
      }
    }
    if SameName(a, b) {
      assert Fold(a) == Fold(b);
    }
  }

  predicate About(a: Answer, name: string) {
    a.inet && EqualFold(a.name, name)
  }

  /** The body is an address of the asked type. */
  predicate Typed(b: Body, typ: Type) {
    match b
    case V4(_) => typ.A?
    case V6(a) => typ.AAAA? && !PacketFilter.Is4In6(a)
    case _ => false
  }

  /** The addresses a reply gives to a name, in order. */
  function AddressesOf(answers: seq<Answer>, name: string, typ: Type): seq<Addr> {
    if answers == [] then []
    else
      var last := answers[|answers| - 1];
      AddressesOf(answers[..|answers| - 1], name, typ)
      + if About(last, name) && Typed(last.body, typ) then [last.body.addr] else []
  }

  /** The alias a reply gives to a name, the last if there are several, empty if there is none. */
  function AliasOf(answers: seq<Answer>, name: string): string {
    if answers == [] then ""
    else
      var last := answers[|answers| - 1];
      if About(last, name) && last.body.Alias? then last.body.target else AliasOf(answers[..|answers| - 1], name)
  }

  lemma {:induction false} AddressesAreOwned(answers: seq<Answer>, name: string, typ: Type, ip: Addr)
    ensures ip in AddressesOf(answers, name, typ) <==>
      exists a :: a in answers && About(a, name) && Typed(a.body, typ) && a.body.addr == ip
  {
    if answers != [] {
      var n := |answers| - 1;
      assert answers == answers[..n] + [answers[n]];
      AddressesAreOwned(answers[..n], name, typ, ip);
    }
  }

  lemma {:induction false} AliasIsAnswered(answers: seq<Answer>, name: string)
    ensures AliasOf(answers, name) != "" ==>
      exists a :: a in answers && About(a, name) && a.body == Alias(AliasOf(answers, name))
  {
    if answers != [] {
      var n := |answers| - 1;
      assert answers == answers[..n] + [answers[n]];
      AliasIsAnswered(answers[..n], name);
    }
  }

  method Scan(answers: seq<Answer>, name: string, typ: Type) returns (ips: seq<Addr>, cname: string)
    ensures ips == AddressesOf(answers, name, typ) && cname == AliasOf(answers, name)
  {
    ips, cname := [], "";
    for i := 0 to |answers|
      invariant ips == AddressesOf(answers[..i], name, typ) && cname == AliasOf(answers[..i], name)
    {
      var a := answers[i];
      assert answers[..i + 1][..i] == answers[..i];
      if !a.inet || !EqualFold(a.name, name) {
        continue;
      }
      match a.body
      case V4(ip) =>
        if typ.A? {
          ips := ips + [ip];
        }
      case V6(ip) =>
        if typ.AAAA? && !PacketFilter.Is4In6(ip) {
          ips := ips + [ip];
        }
      case Alias(target) => cname := target;
      case Other =>
    }
    assert answers[..|answers|] == answers;
  }

  // Alias chains

  /** Some reply that was received gives `from` the alias `to`. */
  ghost predicate Link(heard: seq<Reply>, from: string, to: string) {
    exists r :: r in heard && exists a :: a in r.answers && a.inet && SameName(a.name, from) && a.body == Alias(to)
  }

  /** Names followed one after the other, no name twice. */
  ghost predicate Chain(heard: seq<Reply>, chain: seq<string>) {
    && (forall i :: 0 <= i < |chain| - 1 ==> Link(heard, chain[i], chain[i + 1]))
    && (forall i, j :: 0 <= i < j < |chain| ==> !SameName(chain[i], chain[j]))
  }

  ghost predicate Seen(seen: set<string>, chain: seq<string>) {
    forall k :: k in seen <==> exists i :: 0 <= i < |chain| && Fold(chain[i]) == k
  }

  lemma SeenGrows(seen: set<string>, chain: seq<string>, name: string)
    requires Seen(seen, chain) && Fold(name) !in seen
    ensures Seen(seen + {Fold(name)}, chain + [name])
    ensures forall i :: 0 <= i < |chain| ==> !EqualFold(chain[i], name)
  {
    var longer := chain + [name];
    forall k
      ensures k in seen + {Fold(name)} <==> exists i :: 0 <= i < |longer| && Fold(longer[i]) == k
    {
      if k in seen {
        var i :| 0 <= i < |chain| && Fold(chain[i]) == k;
        assert Fold(longer[i]) == k;
      }
      assert longer[|chain|] == name;
    }
  }

  lemma ChainGrows(heard: seq<Reply>, chain: seq<string>, name: string)
    requires Chain(heard, chain) && LeadsTo(heard, chain, name)
    requires forall i :: 0 <= i < |chain| ==> !EqualFold(chain[i], name)
    ensures Chain(heard, chain + [name])
  {
    forall i | 0 <= i < |chain|
      ensures !SameName(chain[i], name)
    {
      FoldsAlike(chain[i], name);
    }
    hide Link, EqualFold, SameName;
  }

  /** The chain can be continued with `name`. */
  ghost predicate LeadsTo(heard: seq<Reply>, chain: seq<string>, name: string) {
    chain == [] || Link(heard, chain[|chain| - 1], name)
  }

  /** The name the chain leads to is one it already has. */
  ghost predicate Repeats(heard: seq<Reply>, chain: seq<string>) {
    exists name, i :: 0 <= i < |chain| && SameName(chain[i], name) && LeadsTo(heard, chain, name)
  }

  /** The reply has neither an address of the type nor an alias for the name. */
  ghost predicate Empty(r: Reply, name: string, typ: Type) {
    && (forall ip :: !Owns(r, name, typ, ip))
    && forall a :: a in r.answers && a.inet && SameName(a.name, name) && a.body.Alias? ==> HasEmptyAlias(r, name)
  }

  /** An alias of the name is the empty name. */
  ghost predicate HasEmptyAlias(r: Reply, name: string) {
    exists a :: a in r.answers && a.inet && SameName(a.name, name) && a.body == Alias("")
  }

  /** Why a reply ends the search without an address. */
  ghost predicate DeadEnd(heard: seq<Reply>, reply: Reply, chain: seq<string>, typ: Type) {
    || |chain| == 8
    || Repeats(heard, chain)
    || (chain != [] && Empty(reply, chain[|chain| - 1], typ))
  }

  lemma RepeatsSeen(heard: seq<Reply>, seen: set<string>, chain: seq<string>, name: string)
    requires Seen(seen, chain) && Fold(name) in seen && LeadsTo(heard, chain, name)
    ensures Repeats(heard, chain)
  {
    var i :| 0 <= i < |chain| && Fold(chain[i]) == Fold(name);
    FoldsAlike(chain[i], name);
  }

  lemma EmptyReply(r: Reply, name: string, typ: Type)
    requires AddressesOf(r.answers, name, typ) == [] && AliasOf(r.answers, name) == ""
    ensures Empty(r, name, typ)
  {
    forall ip
      ensures !Owns(r, name, typ, ip)
    {
      OwnedIsCollected(r, name, typ, ip);
    }
    if a :| a in r.answers && a.inet && SameName(a.name, name) && a.body.Alias? {
      FoldsAlike(a.name, name);
      NoAlias(r.answers, name, a);
      var b :| b in r.answers && About(b, name) && b.body == Alias("");
      FoldsAlike(b.name, name);
    }
  }

  /** The addresses collected are those the reply owns. */
  lemma OwnedIsCollected(r: Reply, name: string, typ: Type, ip: Addr)
    ensures ip in AddressesOf(r.answers, name, typ) <==> Owns(r, name, typ, ip)
  {
    AddressesAreOwned(r.answers, name, typ, ip);
    PacketFilterMeaning.MappedExactly(ip);
    forall a | a in r.answers
      ensures About(a, name) <==> a.inet && SameName(a.name, name)
    {
      FoldsAlike(a.name, name);
    }
  }

  /** The last alias of the name decides; when it is empty, one of its aliases is. */
  lemma {:induction false} NoAlias(answers: seq<Answer>, name: string, a: Answer)
    requires AliasOf(answers, name) == "" && a in answers && About(a, name) && a.body.Alias?
    ensures exists b :: b in answers && About(b, name) && b.body == Alias("")
  {
    var last := answers[|answers| - 1];
    assert answers == answers[..|answers| - 1] + [last];
    if About(last, name) && last.body.Alias? {
      assert last.body == Alias("");
    } else {
      NoAlias(answers[..|answers| - 1], name, a);
    }
  }

  datatype Outcome =
    | Found(ips: seq<Addr>)
    | Failure
    | Ask(name: string)

  /** Follows aliases inside one reply to the question `name`. The count of hops covers the names seen. */
  method FollowReply(reply: Reply, ghost heard: seq<Reply>, name: string, typ: Type, seen: set<string>, hops: nat, ghost chain: seq<string>)
    returns (o: Outcome, seenAfter: set<string>, hopsAfter: nat, ghost chainAfter: seq<string>)
    requires reply in heard && EqualFold(reply.question, name)
    requires Seen(seen, chain) && Chain(heard, chain) && LeadsTo(heard, chain, name) && hops == |chain| < MAX_HOPS
    ensures chain <= chainAfter && |chainAfter| <= MAX_HOPS
    ensures chainAfter != [] ==> chainAfter[0] == if chain == [] then name else chain[0]
    ensures Chain(heard, chainAfter)
    ensures o.Ask? ==> hops < hopsAfter == |chainAfter| && Seen(seenAfter, chainAfter) && LeadsTo(heard, chainAfter, o.name)
    ensures o.Found? ==> chainAfter != [] && o.ips != [] && o.ips == AddressesOf(reply.answers, chainAfter[|chainAfter| - 1], typ)
    ensures o.Failure? ==> DeadEnd(heard, reply, chainAfter, typ)
  {
    hide Link, Chain, Seen, Fold, AddressesOf, AliasOf, Repeats, Empty, LeadsTo;
    assert chain == [] ==> LeadsTo(heard, chain, name) by {
      EmptyLeads(heard, name);
    }
    var at := name;
    seenAfter, hopsAfter, chainAfter := seen, hops, chain;
    while hopsAfter < MAX_HOPS
      invariant chain <= chainAfter && |chainAfter| == hopsAfter <= MAX_HOPS
      invariant chainAfter != [] ==> chainAfter[0] == if chain == [] then name else chain[0]
      invariant Seen(seenAfter, chainAfter) && Chain(heard, chainAfter) && LeadsTo(heard, chainAfter, at)
      invariant chainAfter == chain ==> at == name
    {
      var key := Fold(at);
      if key in seenAfter {
        RepeatsSeen(heard, seenAfter, chainAfter, at);
        return Failure, seenAfter, hopsAfter, chainAfter;
      }
      SeenGrows(seenAfter, chainAfter, at);
      ChainGrows(heard, chainAfter, at);
      ghost var before, chainBefore := seenAfter, chainAfter;
      seenAfter, hopsAfter, chainAfter := seenAfter + {key}, hopsAfter + 1, chainAfter + [at];
      var ips, cname := Scan(reply.answers, at, typ);
      if ips != [] {
        return Found(ips), seenAfter, hopsAfter, chainAfter;
      }
      if cname == "" {
        if !EqualFold(at, reply.question) {
          // the reply ended at an alias, whose name is asked next
          seenAfter, hopsAfter, chainAfter := seenAfter - {key}, hopsAfter - 1, chainBefore;
          assert seenAfter == before;
          return Ask(at), seenAfter, hopsAfter, chainAfter;
        }
        EmptyReply(reply, at, typ);
        return Failure, seenAfter, hopsAfter, chainAfter;
      }
      LinkHeard(heard, reply, at);
      LinkLeads(heard, chainAfter, at, cname);
      at := cname;
    }
    o := Failure;
  }

  lemma EmptyLeads(heard: seq<Reply>, name: string)
    ensures LeadsTo(heard, [], name)
  {
  }

  lemma LinkLeads(heard: seq<Reply>, chain: seq<string>, from: string, to: string)
    requires chain != [] && chain[|chain| - 1] == from && Link(heard, from, to)
    ensures LeadsTo(heard, chain, to)
  {
    hide Link;
  }

  lemma LinkHeard(heard: seq<Reply>, reply: Reply, name: string)
    requires reply in heard && AliasOf(reply.answers, name) != ""
    ensures Link(heard, name, AliasOf(reply.answers, name))
  {
    AliasIsAnswered(reply.answers, name);
    var a :| a in reply.answers && About(a, name) && a.body == Alias(AliasOf(reply.answers, name));
    FoldsAlike(a.name, name);
  }

  lemma ChainHeard(heard: seq<Reply>, more: seq<Reply>, chain: seq<string>, name: string)
    requires Chain(heard, chain) && LeadsTo(heard, chain, name)
    ensures Chain(heard + more, chain) && LeadsTo(heard + more, chain, name)
  {
    forall from, to | Link(heard, from, to)
      ensures Link(heard + more, from, to)
    {
      var r :| r in heard && exists a :: a in r.answers && a.inet && SameName(a.name, from) && a.body == Alias(to);
      assert r in heard + more;
    }
  }

  predicate Acceptable(r: Reply, name: string, typ: Type) {
    r.wellFormed && EqualFold(r.question, name) && r.typ == typ && r.inet
  }

  /** The resolver gave this reply to its query number `i`, and it was accepted. */
  ghost predicate Received(resolver: Resolver, i: nat, typ: Type, r: Reply) {
    exists name :: resolver(i, name, typ) == Some(r) && r.wellFormed && r.inet && r.typ == typ && SameName(r.question, name)
  }

  ghost predicate AllReceived(resolver: Resolver, typ: Type, heard: seq<Reply>) {
    forall i :: 0 <= i < |heard| ==> Received(resolver, i, typ, heard[i])
  }

  lemma WasReceived(resolver: Resolver, heard: seq<Reply>, name: string, typ: Type, r: Reply)
    requires AllReceived(resolver, typ, heard) && resolver(|heard|, name, typ) == Some(r) && Acceptable(r, name, typ)
    ensures AllReceived(resolver, typ, heard + [r])
  {
    FoldsAlike(r.question, name);
    assert Received(resolver, |heard|, typ, r);
  }

  lemma AllOwned(r: Reply, name: string, typ: Type)
    ensures forall ip :: ip in AddressesOf(r.answers, name, typ) <==> Owns(r, name, typ, ip)
  {
    forall ip
      ensures ip in AddressesOf(r.answers, name, typ) <==> Owns(r, name, typ, ip)
    {
      OwnedIsCollected(r, name, typ, ip);
    }
  }

  /** The resolver gave its query of this number no reply to the question. */
  ghost predicate Refused(resolver: Resolver, i: nat, typ: Type) {
    exists name :: var r := resolver(i, name, typ);
      r.None? || !(r.value.wellFormed && r.value.inet && r.value.typ == typ && SameName(r.value.question, name))
  }

  lemma EightNames(heard: seq<Reply>, reply: Reply, chain: seq<string>, typ: Type)
    requires |chain| == 8
    ensures DeadEnd(heard, reply, chain, typ)
  {
    hide Repeats, Empty;
  }

  lemma AcceptedQuestion(r: Reply, name: string, typ: Type)
    requires Acceptable(r, name, typ)
    ensures EqualFold(r.question, name)
  {
  }

  lemma NotReceived(resolver: Resolver, i: nat, name: string, typ: Type)
    requires resolver(i, name, typ).None? || !Acceptable(resolver(i, name, typ).value, name, typ)
    ensures Refused(resolver, i, typ)
  {
    if resolver(i, name, typ).Some? {
      FoldsAlike(resolver(i, name, typ).value.question, name);
    }
  }

  /** Whatever the resolver does: at most eight queries, no name followed twice, and an answer is the
      non-empty list of exactly the addresses of the asked type that an acceptable reply gives to the end of
      an alias chain from the question. There is no answer only if the last query got no acceptable reply,
      the chain has eight names or leads back to one of them, or the last reply has nothing for its end. */
  method Lookup(resolver: Resolver, question: string, typ: Type)
    returns (r: Option<seq<Addr>>, queries: nat, ghost chain: seq<string>, ghost heard: seq<Reply>)
    ensures queries <= 8 && |heard| <= queries
    ensures |chain| <= 8 && Chain(heard, chain) && (chain != [] ==> chain[0] == question)
    ensures AllReceived(resolver, typ, heard)
    ensures r.Some? ==> r.value != [] && chain != [] && heard != []
    ensures r.Some? ==> forall ip :: ip in r.value <==> Owns(heard[|heard| - 1], chain[|chain| - 1], typ, ip)
    ensures r.None? ==> if queries > |heard| then Refused(resolver, |heard|, typ)
                        else heard != [] && DeadEnd(heard, heard[|heard| - 1], chain, typ)
  {
    assert Seen({}, []) && Chain([], []) && LeadsTo([], [], question);
    hide Seen, Chain, LeadsTo, EqualFold, AddressesOf, Owns, AllReceived, Repeats, Empty, Refused, DeadEnd, Acceptable,
      SameName, Fold, Link;
    var seen: set<string> := {};
    var name, hops := question, 0;
    chain, heard, queries := [], [], 0;
    while hops < MAX_HOPS
      invariant queries == |heard| <= hops == |chain| <= MAX_HOPS
      invariant Seen(seen, chain) && Chain(heard, chain) && LeadsTo(heard, chain, name)
      invariant if chain == [] then name == question else chain[0] == question
      invariant AllReceived(resolver, typ, heard)
      decreases MAX_HOPS - hops
    {
      var reply := resolver(queries, name, typ);
      queries := queries + 1;
      if reply.None? || !Acceptable(reply.value, name, typ) {
        NotReceived(resolver, queries - 1, name, typ);
        return None, queries, chain, heard;
      }
      WasReceived(resolver, heard, name, typ, reply.value);
      AcceptedQuestion(reply.value, name, typ);
      ChainHeard(heard, [reply.value], chain, name);
      heard := heard + [reply.value];
      var o;
      o, seen, hops, chain := FollowReply(reply.value, heard, name, typ, seen, hops, chain);
      if o.Failure? {
        return None, queries, chain, heard;
      }
      if o.Found? {
        AllOwned(reply.value, chain[|chain| - 1], typ);
        return Some(o.ips), queries, chain, heard;
      }
      name := o.name;
    }
    EightNames(heard, heard[|heard| - 1], chain, typ);
    r := None;
  }

  /** The reply has an address record of the type for the name with this address. */
  ghost predicate Owns(r: Reply, name: string, typ: Type, ip: Addr) {
    exists a :: a in r.answers && a.inet && SameName(a.name, name) &&
      match typ
      case A => a.body == V4(ip)
      case AAAA => a.body == V6(ip) && !(ip.v6 && 0xffff_0000_0000 <= ip.value < 0x1_0000_0000_0000)
  }
}
