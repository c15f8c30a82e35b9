/**
 Provisioning the official conformance fixture through an admin API on which any
 write may commit while its response is lost, and on which a create of a gateway or
 of the server that seemed to fail may commit at any later moment. Which of these
 happens is left open at every request.
 */
module FixtureProvisioning {
  import opened Outcomes

  const GATEWAY_NAME: string := "_"
  const BACKEND_URL: string := "http://mcp_conformance_proxy/mcp"
  const GATEWAY_TRANSPORT: string := "STREAMABLEHTTP"
  const GATEWAY_DESCRIPTION: string := "Official MCP conformance fixture"
  const SERVER_ID: string := "3f33286667d34b65a31c3bafd30e4c21"
  const SERVER_NAME: string := "Official MCP Conformance Server"
  const SERVER_DESCRIPTION: string := "Virtual server for the pinned official MCP conformance fixture."
  const REQUIRED_TOOL: string := "test_simple_text"
  const REQUIRED_RESOURCE: string := "test://static-text"
  const REQUIRED_PROMPT: string := "test_simple_prompt"
  const REQUIRED_QUIET_POLLS: nat := 2
  const FIXTURE_SERVER: Server := Server(SERVER_ID, SERVER_NAME, Some(SERVER_DESCRIPTION))

  datatype Gateway = Gateway(id: string, name: string, url: string, transport: string, description: Option<string>) {
    predicate IsReserved() { name == GATEWAY_NAME }

    predicate IsOwned() {
      IsReserved() && url == BACKEND_URL && transport == GATEWAY_TRANSPORT && description == Some(GATEWAY_DESCRIPTION)
    }
  }

  datatype Server = Server(id: string, name: string, description: Option<string>) {
    predicate IsOwned() { name == SERVER_NAME && description == Some(SERVER_DESCRIPTION) }
  }

  /** A catalog entry; absent names and URIs are empty. */
  datatype Record = Record(id: string, name: string, uri: string, gatewayId: Option<string>)

  /** The ids a virtual server is associated with. */
  datatype CatalogIds = CatalogIds(tools: seq<string>, resources: seq<string>, prompts: seq<string>)

  datatype Creation = Creation(server: Server, associated: CatalogIds)

  datatype Event =
    | GatewaysRead(listed: Option<seq<Gateway>>)
    | ServersRead(listing: Option<seq<Server>>)
    | GatewayDeleted(id: string)
    | ServerDeleted(id: string)
    | GatewayRequested
    | CatalogRead(records: Option<seq<Record>>)
    | Posted(body: Option<Creation>)

  datatype Failure =
    | RequestFailed | NotOwned | DeleteFailed | CatalogIncomplete | ServerNotCreated | NotQuiet | BothFailed

  datatype ProvisionFailure =
    | WrongBackend
    | CleanupFirst(why: Failure)
    | CreateFailed(reconciled: Result<(), Failure>)
    | FinishFailed(why: Failure, cleaned: Result<(), Failure>)

  datatype Fixture = Fixture(gatewayId: string, serverId: string)

  // --------------------------------------------------- what deletes may target

  /** The gateways read last, if only gateway deletes have been issued since. */
  ghost function LastGateways(trace: seq<Event>): seq<Gateway> {
    if trace == [] then []
    else
      match trace[|trace| - 1]
      case GatewaysRead(Some(listed)) => listed
      case GatewayDeleted(_) => LastGateways(trace[..|trace| - 1])
      case _ => []
  }

  ghost function LastServers(trace: seq<Event>): seq<Server> {
    if trace != [] && trace[|trace| - 1].ServersRead? && trace[|trace| - 1].listing.Some?
    then trace[|trace| - 1].listing.value
    else []
  }

  lemma TraceAppend(trace: seq<Event>, event: Event)
    ensures var longer := trace + [event];
            && longer[..|longer| - 1] == trace && longer[|longer| - 1] == event
  {
  }

  lemma OwnedMayBeDeleted(trace: seq<Event>, g: Gateway)
    requires g in LastGateways(trace) && g.IsOwned()
    ensures MayDeleteGateway(trace, g.id)
  {
  }

  lemma LastGatewaysKept(trace: seq<Event>, id: string)
    ensures LastGateways(trace + [GatewayDeleted(id)]) == LastGateways(trace)
  {
    TraceAppend(trace, GatewayDeleted(id));
  }

  function WithoutGateway(gateways: seq<Gateway>, id: string): (r: seq<Gateway>)
    ensures forall g :: g in r <==> g in gateways && g.id != id
    ensures Reserved(r) <= Reserved(gateways) && |r| <= |gateways|
  {
    if gateways == [] then []
    else
      assert gateways == gateways[..|gateways| - 1] + [gateways[|gateways| - 1]];
      var last := gateways[|gateways| - 1];
      var rest := WithoutGateway(gateways[..|gateways| - 1], id);
      if last.id == id then rest
      else
        assert (rest + [last])[..|rest|] == rest;
        rest + [last]
  }

  function WithoutServer(servers: seq<Server>, id: string): (r: seq<Server>)
    ensures forall s :: s in r <==> s in servers && s.id != id
  {
    if servers == [] then []
    else
      assert servers == servers[..|servers| - 1] + [servers[|servers| - 1]];
      WithoutServer(servers[..|servers| - 1], id) +
      if servers[|servers| - 1].id == id then [] else [servers[|servers| - 1]]
  }

  /** How many gateways carry the reserved name. */
  function Reserved(gateways: seq<Gateway>): nat {
    if gateways == [] then 0
    else Reserved(gateways[..|gateways| - 1]) + if gateways[|gateways| - 1].IsReserved() then 1 else 0
  }

  predicate NoneReserved(gateways: seq<Gateway>) {
    forall g :: g in gateways ==> !g.IsReserved()
  }

  predicate ReservedAreOwned(gateways: seq<Gateway>) {
    forall g :: g in gateways && g.IsReserved() ==> g.IsOwned()
  }

  lemma {:induction false} ReservedIsZeroExactlyWhenNone(gateways: seq<Gateway>)
    ensures Reserved(gateways) == 0 <==> NoneReserved(gateways)
  {
    if gateways != [] {
      ReservedIsZeroExactlyWhenNone(gateways[..|gateways| - 1]);
      assert gateways == gateways[..|gateways| - 1] + [gateways[|gateways| - 1]];
      assert gateways[|gateways| - 1] in gateways;
    }
  }

  lemma {:induction false} OwnedAreReserved(gateways: seq<Gateway>)
    requires forall g :: g in gateways ==> g.IsOwned()
    ensures Reserved(gateways) == |gateways|
    decreases |gateways|
  {
    if gateways != [] {
      OwnedAreReserved(gateways[..|gateways| - 1]);
      assert gateways[|gateways| - 1] in gateways;
    }
  }

  lemma {:induction false} ReservedAppend(a: seq<Gateway>, b: seq<Gateway>)
    ensures Reserved(a + b) == Reserved(a) + Reserved(b) <= Reserved(a) + |b|
    decreases |b|
  {
    if b == [] {
      assert a + b == a;
    } else {
      ReservedAppend(a, b[..|b| - 1]);
      assert (a + b)[..|a + b| - 1] == a + b[..|b| - 1];
    }
  }

  // ---------------------------------------------------------------- catalogs

  datatype Catalog = Catalog(tools: seq<Record>, resources: seq<Record>, prompts: seq<Record>) {
    predicate Complete() {
      && (exists t :: t in tools && t.name == REQUIRED_TOOL)
      && (exists r :: r in resources && r.uri == REQUIRED_RESOURCE)
      && (exists p :: p in prompts && p.name == REQUIRED_PROMPT)
    }

    function Ids(): CatalogIds { CatalogIds(IdsOf(tools), IdsOf(resources), IdsOf(prompts)) }
  }

  function OfGateway(records: seq<Record>, gatewayId: string): (r: seq<Record>)
    ensures forall x :: x in r <==> x in records && x.gatewayId == Some(gatewayId)
  {
    if records == [] then []
    else
      assert records == records[..|records| - 1] + [records[|records| - 1]];
      OfGateway(records[..|records| - 1], gatewayId) +
      if records[|records| - 1].gatewayId == Some(gatewayId) then [records[|records| - 1]] else []
  }

  function IdsOf(records: seq<Record>): seq<string> {
    seq(|records|, i requires 0 <= i < |records| => records[i].id)
  }

  /** The records of a gateway in the three catalogs read from position `i` of the trace on. */
  ghost function RoundAt(trace: seq<Event>, i: nat, gatewayId: string): Option<Catalog> {
    if i + 3 <= |trace| && (forall k :: i <= k < i + 3 ==> trace[k].CatalogRead? && trace[k].records.Some?) then
      Some(Catalog(OfGateway(trace[i].records.value, gatewayId), OfGateway(trace[i + 1].records.value, gatewayId),
                   OfGateway(trace[i + 2].records.value, gatewayId)))
    else None
  }

  lemma IdentitiesDiffer()
    ensures REQUIRED_TOOL != REQUIRED_RESOURCE && REQUIRED_TOOL != REQUIRED_PROMPT
    ensures REQUIRED_RESOURCE != REQUIRED_PROMPT
  {
    assert REQUIRED_TOOL[4] == REQUIRED_PROMPT[4] == '_' && REQUIRED_RESOURCE[4] == ':';
    assert REQUIRED_TOOL[12] == 't' && REQUIRED_PROMPT[12] == 'p';
  }

  /** The required identities a catalog lacks, in reporting order. */
  method MissingIdentities(catalog: Catalog) returns (missing: seq<string>)
    ensures missing == [] <==> catalog.Complete()
    ensures REQUIRED_TOOL in missing <==> forall t :: t in catalog.tools ==> t.name != REQUIRED_TOOL
    ensures REQUIRED_RESOURCE in missing <==> forall r :: r in catalog.resources ==> r.uri != REQUIRED_RESOURCE
    ensures REQUIRED_PROMPT in missing <==> forall p :: p in catalog.prompts ==> p.name != REQUIRED_PROMPT
    ensures |missing| <= 3 && forall i, j :: 0 <= i < j < |missing| ==> missing[i] != missing[j]
  {
    missing := [];
    var tool, resource, prompt := false, false, false;
    for i := 0 to |catalog.tools|
      invariant tool <==> exists t :: t in catalog.tools[..i] && t.name == REQUIRED_TOOL
    {
      assert catalog.tools[..i + 1] == catalog.tools[..i] + [catalog.tools[i]];
      tool := tool || catalog.tools[i].name == REQUIRED_TOOL;
    }
    for i := 0 to |catalog.resources|
      invariant resource <==> exists r :: r in catalog.resources[..i] && r.uri == REQUIRED_RESOURCE
    {
      assert catalog.resources[..i + 1] == catalog.resources[..i] + [catalog.resources[i]];
      resource := resource || catalog.resources[i].uri == REQUIRED_RESOURCE;
    }
    for i := 0 to |catalog.prompts|
      invariant prompt <==> exists p :: p in catalog.prompts[..i] && p.name == REQUIRED_PROMPT
    {
      assert catalog.prompts[..i + 1] == catalog.prompts[..i] + [catalog.prompts[i]];
      prompt := prompt || catalog.prompts[i].name == REQUIRED_PROMPT;
    }
    assert catalog.tools[..|catalog.tools|] == catalog.tools;
    assert catalog.resources[..|catalog.resources|] == catalog.resources;
    assert catalog.prompts[..|catalog.prompts|] == catalog.prompts;
    IdentitiesDiffer();
    if !tool { missing := missing + [REQUIRED_TOOL]; }
    if !resource { missing := missing + [REQUIRED_RESOURCE]; }
    if !prompt { missing := missing + [REQUIRED_PROMPT]; }
  }

  /** The poll at position `i` has seen the catalogs incomplete. */
  ghost predicate GivesUpOn(trace: seq<Event>, i: nat, gatewayId: string) {
    RoundAt(trace, i, gatewayId).Some? && !RoundAt(trace, i, gatewayId).value.Complete()
  }

  /** The last request created the fixture's server from the complete catalogs read just before. */
  ghost predicate EndsInServer(trace: seq<Event>, fixture: Fixture) {
    && |trace| >= 4
    && var catalog := RoundAt(trace, |trace| - 4, fixture.gatewayId);
       && catalog.Some? && catalog.value.Complete()
       && trace[|trace| - 1] ==
            Posted(Some(Creation(Server(fixture.serverId, SERVER_NAME, Some(SERVER_DESCRIPTION)), catalog.value.Ids())))
  }

  predicate CreatesServer(event: Event) {
    event.Posted? && event.body.Some?
  }

  lemma RoundRead(
    trace: seq<Event>, i: nat, tools: seq<Record>, resources: seq<Record>, prompts: seq<Record>, gatewayId: string)
    requires i + 3 <= |trace| && trace[i] == CatalogRead(Some(tools))
    requires trace[i + 1] == CatalogRead(Some(resources)) && trace[i + 2] == CatalogRead(Some(prompts))
    ensures RoundAt(trace, i, gatewayId) ==
            Some(Catalog(OfGateway(tools, gatewayId), OfGateway(resources, gatewayId), OfGateway(prompts, gatewayId)))
  {
    hide OfGateway;
  }

  lemma RoundKept(trace: seq<Event>, longer: seq<Event>, i: nat, gatewayId: string)
    requires trace <= longer && RoundAt(trace, i, gatewayId).Some?
    ensures RoundAt(longer, i, gatewayId) == RoundAt(trace, i, gatewayId)
  {
  }

  lemma GaveUp(trace: seq<Event>, i: nat, gatewayId: string, catalog: Catalog)
    requires RoundAt(trace, i, gatewayId) == Some(catalog) && !catalog.Complete()
    ensures GivesUpOn(trace, i, gatewayId)
  {
  }

  lemma StillGaveUp(trace: seq<Event>, longer: seq<Event>, i: nat, gatewayId: string)
    requires trace <= longer && GivesUpOn(trace, i, gatewayId)
    ensures GivesUpOn(longer, i, gatewayId)
  {
    RoundKept(trace, longer, i, gatewayId);
  }

  // ------------------------------------------------------ what requests may do

  function ServersWithId(servers: seq<Server>, id: string): (r: seq<Server>)
    ensures forall s :: s in r <==> s in servers && s.id == id
  {
    if servers == [] then []
    else
      assert servers == servers[..|servers| - 1] + [servers[|servers| - 1]];
      ServersWithId(servers[..|servers| - 1], id) +
      if servers[|servers| - 1].id == id then [servers[|servers| - 1]] else []
  }

  function GatewaysWithId(gateways: seq<Gateway>, id: string): (r: seq<Gateway>)
    ensures forall g :: g in r <==> g in gateways && g.id == id
  {
    if gateways == [] then []
    else
      assert gateways == gateways[..|gateways| - 1] + [gateways[|gateways| - 1]];
      GatewaysWithId(gateways[..|gateways| - 1], id) +
      if gateways[|gateways| - 1].id == id then [gateways[|gateways| - 1]] else []
  }

  /** An owned gateway of the list read last may be deleted. */
  ghost predicate MayDeleteGateway(trace: seq<Event>, id: string) {
    exists g :: g in LastGateways(trace) && g.id == id && g.IsOwned()
  }

  /** The fixture's server may be deleted when the list read just before has it once, and owned. */
  ghost predicate MayDeleteServer(trace: seq<Event>, id: string) {
    id == SERVER_ID && Decide(LastServers(trace)) == Delete
  }

  /** The server may be created from the complete catalogs of some gateway, read just before. */
  ghost predicate MayCreateServer(trace: seq<Event>, body: Creation) {
    exists gatewayId :: JustPolled(trace, gatewayId, body)
  }

  ghost predicate JustPolled(trace: seq<Event>, gatewayId: string, body: Creation) {
    && |trace| >= 3
    && var catalog := RoundAt(trace, |trace| - 3, gatewayId);
       catalog.Some? && catalog.value.Complete() && body == Creation(FIXTURE_SERVER, catalog.value.Ids())
  }

  /** Every delete and every creation of the server was allowed when it was requested. */
  ghost predicate RequestsAreSound(trace: seq<Event>) {
    trace == [] ||
    (RequestsAreSound(trace[..|trace| - 1]) && MayFollow(trace[..|trace| - 1], trace[|trace| - 1]))
  }

  ghost predicate MayFollow(trace: seq<Event>, event: Event) {
    match event
    case GatewayDeleted(id) => MayDeleteGateway(trace, id)
    case ServerDeleted(id) => MayDeleteServer(trace, id)
    case Posted(Some(body)) => MayCreateServer(trace, body)
    case _ => true
  }

  lemma SoundAppend(trace: seq<Event>, event: Event)
    requires RequestsAreSound(trace) && MayFollow(trace, event)
    ensures RequestsAreSound(trace + [event])
  {
    TraceAppend(trace, event);
  }

  // ---------------------------------------------------------- server clean-up

  datatype Decision = Nothing | Refuse | Delete

  /** What is done about the fixture's server, given a list of servers. */
  function Decide(listed: seq<Server>): Decision {
    var matching := ServersWithId(listed, SERVER_ID);
    if matching == [] then Nothing
    else if |matching| != 1 || !matching[0].IsOwned() then Refuse
    else Delete
  }

  function Copies(n: nat): (r: seq<Server>)
    ensures |r| == n && forall s :: s in r ==> s == FIXTURE_SERVER
    ensures n > 0 ==> FIXTURE_SERVER in r
  {
    if n == 0 then [] else Copies(n - 1) + [FIXTURE_SERVER]
  }

  lemma {:induction false} CopiesAdd(servers: seq<Server>, a: nat, b: nat)
    ensures servers + Copies(a) + Copies(b) == servers + Copies(a + b)
    decreases b
  {
    if b == 0 {
      assert servers + Copies(a) + [] == servers + Copies(a);
    } else {
      CopiesAdd(servers, a, b - 1);
      assert servers + Copies(a) + Copies(b) == servers + Copies(a) + Copies(b - 1) + [FIXTURE_SERVER];
    }
  }

  predicate NoServer(servers: seq<Server>) {
    forall s :: s in servers ==> s.id != SERVER_ID
  }

  /**
   A cleanup of the server in which no request fails: `early` creates commit before
   the list is read, and `between` more before the delete, if there is one, takes
   effect; `after` is what there is then.
   */
  ghost predicate CleansTo(before: seq<Server>, after: seq<Server>, early: nat, between: nat) {
    var listed := before + Copies(early);
    match Decide(listed)
    case Nothing => between == 0 && after == listed
    case Delete => after == WithoutServer(listed + Copies(between), SERVER_ID)
    case Refuse => false
  }

  lemma CleaningLeavesNoServer(before: seq<Server>, after: seq<Server>, early: nat, between: nat)
    requires CleansTo(before, after, early, between)
    ensures NoServer(after)
  {
    var listed := before + Copies(early);
    if Decide(listed) == Nothing {
      forall s | s in listed ensures s.id != SERVER_ID {
        assert s in ServersWithId(listed, SERVER_ID) <==> s.id == SERVER_ID;
      }
    }
  }

  lemma CleansWhenNothing(before: seq<Server>, early: nat)
    requires Decide(before + Copies(early)) == Nothing
    ensures CleansTo(before, before + Copies(early), early, 0) && NoServer(before + Copies(early))
  {
    CleaningLeavesNoServer(before, before + Copies(early), early, 0);
  }

  lemma CleansWhenDeleted(before: seq<Server>, early: nat, seen: nat, more: nat)
    requires Decide(before + Copies(early)) == Delete
    ensures var after := WithoutServer(before + Copies(early) + Copies(seen) + Copies(more), SERVER_ID);
            CleansTo(before, after, early, seen + more) && NoServer(after)
  {
    var listed := before + Copies(early);
    hide Copies, Decide, WithoutServer, NoServer;
    CopiesAdd(listed, seen, more);
    assert CleansTo(before, WithoutServer(listed + Copies(seen + more), SERVER_ID), early, seen + more);
    CleaningLeavesNoServer(before, WithoutServer(listed + Copies(seen + more), SERVER_ID), early, seen + more);
  }

  /** Creates that commit once the cleanup's last server request has taken effect are all that can be left. */
  lemma LeftExactlyWhenLate(after: seq<Server>, late: nat)
    requires NoServer(after)
    ensures NoServer(after + Copies(late)) <==> late == 0
  {
    if late > 0 { assert FIXTURE_SERVER in after + Copies(late); }
  }

  /**
   A cleanup of the server that is not refused is certain to leave none exactly when
   no create of the server is undecided: one that is can commit after the cleanup.
   */
  lemma CleanupIsCertainExactlyWhen(before: seq<Server>, undecided: nat)
    requires Decide(before) != Refuse
    ensures (forall after, early: nat, between: nat, late: nat |
               early + between + late <= undecided && CleansTo(before, after, early, between) ::
               NoServer(after + Copies(late)))
            <==> undecided == 0
  {
    if undecided == 0 {
      forall after, early: nat, between: nat, late: nat |
        early + between + late <= undecided && CleansTo(before, after, early, between)
        ensures NoServer(after + Copies(late))
      {
        CleaningLeavesNoServer(before, after, early, between);
        LeftExactlyWhenLate(after, late);
      }
    } else {
      var after := LateCreateSurvives(before);
      assert CleansTo(before, after, 0, 0) && !NoServer(after + Copies(1));
    }
  }

  /** The failing run: nothing is in the way, the cleanup succeeds, and then one create commits. */
  lemma LateCreateSurvives(before: seq<Server>) returns (after: seq<Server>)
    requires Decide(before) != Refuse
    ensures CleansTo(before, after, 0, 0) && FIXTURE_SERVER in after + Copies(1) && !NoServer(after + Copies(1))
  {
    assert before + Copies(0) == before && before + Copies(0) + Copies(0) == before;
    after := if Decide(before) == Nothing then before else WithoutServer(before, SERVER_ID);
    assert FIXTURE_SERVER in Copies(1);
  }

  // ------------------------------------------------------ gateway clean-up

  /** After a poll that left nothing reserved, creates that commit later are all that can be left. */
  lemma ReservedLeftExactlyWhenLate(polled: seq<Gateway>, late: seq<Gateway>)
    requires NoneReserved(polled) && forall g :: g in late ==> g.IsOwned()
    ensures NoneReserved(polled + late) <==> late == []
  {
    if late != [] { assert late[0] in late && late[0] in polled + late; }
  }

  /**
   A reconciliation that succeeds has polled nothing reserved last. It is certain to
   leave none exactly when no create of a gateway is undecided by then.
   */
  lemma ReconciliationIsCertainExactlyWhen(polled: seq<Gateway>, undecided: nat)
    requires NoneReserved(polled)
    ensures (forall late: seq<Gateway> :: |late| <= undecided && (forall g :: g in late ==> g.IsOwned()) ==>
               NoneReserved(polled + late))
            <==> undecided == 0
  {
    if undecided == 0 {
      forall late: seq<Gateway> | |late| <= undecided && (forall g :: g in late ==> g.IsOwned())
        ensures NoneReserved(polled + late)
      {
        ReservedLeftExactlyWhenLate(polled, late);
      }
    } else {
      var late := [Gateway("late", GATEWAY_NAME, BACKEND_URL, GATEWAY_TRANSPORT, Some(GATEWAY_DESCRIPTION))];
      assert forall g :: g in late ==> g == late[0];
      ReservedLeftExactlyWhenLate(polled, late);
      assert !NoneReserved(polled + late);
    }
  }

  // ----------------------------------------------------------- the admin API

  class AdminApi {
    /** The gateways there were when the last request about gateways took effect, and those created late since. */
    var settled: seq<Gateway>
    var recent: seq<Gateway>
    /** The servers there were when the last request about them took effect; `unseen` creates have committed since. */
    var known: seq<Server>
    var unseen: nat
    /** Creates of the server that have had no answer and had not committed, and how many of them have by now. */
    var undecided: nat
    var late: nat
    ghost var trace: seq<Event>
    /** Requests whose response was an error or never came. */
    ghost var failures: nat
    /** Creates of a gateway that have had no answer and had not committed, and how many of them have by now. */
    var outstanding: nat
    var arrived: nat
    /** Every gateway id that has ever been given out. */
    var issued: set<string>
    /** The id of the gateway the last answered create stored. */
    ghost var created: Option<string>

    ghost predicate Valid()
      reads this
    {
      && (forall g :: g in settled + recent ==> g.id in issued)
      && (forall g :: g in recent ==> g.IsOwned())
      && unseen <= late <= undecided && |recent| <= arrived <= outstanding
      && RequestsAreSound(trace)
    }

    function Gateways(): seq<Gateway>
      reads this
    {
      settled + recent
    }

    function Servers(): seq<Server>
      reads this
    {
      known + Copies(unseen)
    }

    /** How many gateways carry the reserved name. */
    ghost function ReservedCount(): nat
      reads this
    {
      Reserved(settled) + |recent|
    }

    lemma NoneReservedExactlyWhen()
      requires Valid() && NoneReserved(settled)
      ensures NoneReserved(Gateways()) <==> recent == []
    {
      ReservedLeftExactlyWhenLate(settled, recent);
    }

    lemma NoServerExactlyWhen()
      requires NoServer(known)
      ensures NoServer(Servers()) <==> unseen == 0
    {
      LeftExactlyWhenLate(known, unseen);
    }

    /** Time passes: creates without an answer may commit. */
    method Wait()
      requires Valid()
      modifies this`recent, this`arrived, this`issued, this`late, this`unseen
      ensures Valid() && old(issued) <= issued
      ensures arrived - old(arrived) == |recent| - |old(recent)| >= 0 && old(recent) <= recent
      ensures forall g :: g in recent ==> g in old(recent) || g.id !in old(issued)
      ensures late - old(late) == unseen - old(unseen) >= 0
    {
      var more: seq<Gateway> := *;
      if arrived + |more| <= outstanding && (forall g :: g in more ==> g.IsOwned() && g.id !in issued) {
        recent := recent + more;
        arrived := arrived + |more|;
        issued := issued + set g | g in more :: g.id;
      }
      var commits :| 0 <= commits <= undecided - late;
      late, unseen := late + commits, unseen + commits;
    }

    method GetGateways() returns (r: Option<seq<Gateway>>)
      requires Valid()
      modifies this`settled, this`recent, this`trace, this`failures, this`arrived, this`issued, this`late, this`unseen
      ensures Valid() && old(issued) <= issued
      ensures trace == old(trace) + [GatewaysRead(r)]
      ensures failures == old(failures) + if r.Some? then 0 else 1
      ensures r.Some? ==> r.value == settled
      ensures |recent| <= arrived - old(arrived)
      ensures ReservedCount() == old(ReservedCount()) + (arrived - old(arrived))
      ensures ReservedAreOwned(old(settled)) ==> ReservedAreOwned(settled)
      ensures forall g :: g in settled ==> g in old(Gateways()) || g.id !in old(issued)
      ensures forall g :: g in recent ==> g.id !in old(issued)
      ensures forall g :: g in old(Gateways()) ==> g in settled
      ensures late - old(late) == unseen - old(unseen) >= 0
    {
      hide RequestsAreSound;
      Wait();
      OwnedAreReserved(recent);
      ReservedAppend(settled, recent);
      settled, recent := settled + recent, [];
      var ok: bool := *;
      r := if ok then Some(settled) else None;
      if !ok { failures := failures + 1; }
      SoundAppend(trace, GatewaysRead(r));
      trace := trace + [GatewaysRead(r)];
      Wait();
    }

    method GetServers() returns (r: Option<seq<Server>>)
      requires Valid()
      modifies this`known, this`recent, this`trace, this`failures, this`arrived, this`issued, this`late, this`unseen
      ensures Valid() && old(issued) <= issued && trace == old(trace) + [ServersRead(r)]
      ensures failures == old(failures) + if r.Some? then 0 else 1
      ensures r.Some? ==> r.value == known
      ensures forall g :: g in recent ==> g in old(recent) || g.id !in old(issued)
      ensures late - old(late) >= unseen && known == old(Servers()) + Copies(late - old(late) - unseen)
    {
      hide RequestsAreSound;
      Wait();
      CopiesAdd(known, old(unseen), unseen - old(unseen));
      known, unseen := known + Copies(unseen), 0;
      var ok: bool := *;
      r := if ok then Some(known) else None;
      if !ok { failures := failures + 1; }
      SoundAppend(trace, ServersRead(r));
      trace := trace + [ServersRead(r)];
      Wait();
    }

    /** Success and `404 Not Found` both mean the gateway is gone; an error means either. */
    method DeleteGateway(id: string) returns (ok: bool)
      requires Valid() && MayDeleteGateway(trace, id)
      modifies this`settled, this`recent, this`trace, this`failures, this`arrived, this`issued, this`late, this`unseen
      ensures Valid() && old(issued) <= issued && trace == old(trace) + [GatewayDeleted(id)]
      ensures LastGateways(trace) == LastGateways(old(trace))
      ensures failures == old(failures) + if ok then 0 else 1
      ensures settled == WithoutGateway(old(settled), id) || (!ok && settled == old(settled))
      ensures arrived - old(arrived) >= 0 && arrived - old(arrived) >= |recent| - |old(recent)|
      ensures forall g :: g in recent ==> (g in old(recent) && (ok ==> g.id != id)) || g.id !in old(issued)
      ensures late - old(late) == unseen - old(unseen) >= 0
    {
      LastGatewaysKept(trace, id);
      hide RequestsAreSound, MayDeleteGateway, LastGateways, WithoutGateway, Reserved;
      ok := *;
      var committed: bool := *;
      if ok || committed {
        settled, recent := WithoutGateway(settled, id), WithoutGateway(recent, id);
      }
      if !ok { failures := failures + 1; }
      SoundAppend(trace, GatewayDeleted(id));
      trace := trace + [GatewayDeleted(id)];
      Wait();
    }

    method DeleteServer(id: string) returns (ok: bool)
      requires Valid() && MayDeleteServer(trace, id)
      modifies this`known, this`recent, this`trace, this`failures, this`arrived, this`issued, this`late, this`unseen
      ensures Valid() && old(issued) <= issued && trace == old(trace) + [ServerDeleted(id)]
      ensures failures == old(failures) + if ok then 0 else 1
      ensures forall g :: g in recent ==> g in old(recent) || g.id !in old(issued)
      ensures ok ==> late - old(late) >= unseen
                     && known == WithoutServer(old(Servers()) + Copies(late - old(late) - unseen), id)
    {
      hide RequestsAreSound, MayDeleteServer, Copies, WithoutServer, Reserved;
      Wait();
      CopiesAdd(known, old(unseen), unseen - old(unseen));
      ok := *;
      var committed: bool := *;
      if ok || committed { known, unseen := WithoutServer(known + Copies(unseen), id), 0; }
      if !ok { failures := failures + 1; }
      SoundAppend(trace, ServerDeleted(id));
      trace := trace + [ServerDeleted(id)];
      Wait();
    }

    /** The response, if it comes, shows the record as stored. */
    method CreateGateway() returns (r: Option<Gateway>)
      requires Valid()
      modifies this`settled, this`recent, this`trace, this`failures, this`arrived, this`issued, this`created,
               this`late, this`unseen, this`outstanding
      ensures Valid() && trace == old(trace) + [GatewayRequested] && old(issued) <= issued
      ensures r.Some? ==> created == Some(r.value.id)
      ensures r.Some? ==> r.value in settled && r.value.id !in old(issued) && r.value.id in issued
      ensures r.Some? ==> (forall g :: g in recent ==> g.id != r.value.id) && outstanding == old(outstanding)
      ensures old(outstanding) <= outstanding <= old(outstanding) + 1
      ensures failures == old(failures) + if r.Some? then 0 else 1
    {
      hide RequestsAreSound;
      var stored: Gateway := *;
      var committed: bool := *;
      var answered: bool := *;
      r := None;
      if committed && stored.id !in issued {
        settled := settled + [stored];
        issued := issued + {stored.id};
        if answered {
          r := Some(stored);
          created := Some(stored.id);
        }
      } else {
        outstanding := outstanding + 1;
      }
      if r.None? { failures := failures + 1; }
      SoundAppend(trace, GatewayRequested);
      trace := trace + [GatewayRequested];
      Wait();
    }

    /** Refreshing the gateway's catalogs. */
    method Refresh() returns (ok: bool)
      requires Valid()
      modifies this`recent, this`trace, this`failures, this`arrived, this`issued, this`late, this`unseen
      ensures Valid() && old(issued) <= issued && trace == old(trace) + [Posted(None)]
      ensures failures == old(failures) + if ok then 0 else 1
      ensures forall g :: g in recent ==> g in old(recent) || g.id !in old(issued)
    {
      hide RequestsAreSound;
      ok := *;
      if !ok { failures := failures + 1; }
      SoundAppend(trace, Posted(None));
      trace := trace + [Posted(None)];
      Wait();
    }

    /** Creating the server; without an answer it may have committed, or be undecided. */
    method CreateServer(body: Creation) returns (ok: bool)
      requires Valid() && MayCreateServer(trace, body)
      modifies this`known, this`recent, this`trace, this`failures, this`arrived, this`issued, this`late, this`unseen,
               this`undecided
      ensures Valid() && old(issued) <= issued && trace == old(trace) + [Posted(Some(body))]
      ensures failures == old(failures) + if ok then 0 else 1
      ensures forall g :: g in recent ==> g in old(recent) || g.id !in old(issued)
      ensures ok ==> FIXTURE_SERVER in Servers() && undecided == old(undecided)
      ensures old(undecided) <= undecided <= old(undecided) + 1
    {
      hide RequestsAreSound;
      ok := *;
      var committed: bool := *;
      if ok || committed {
        assert FIXTURE_SERVER in [body.server];
        known, unseen := known + Copies(unseen) + [body.server], 0;
      } else {
        undecided := undecided + 1;
      }
      if !ok { failures := failures + 1; }
      SoundAppend(trace, Posted(Some(body)));
      trace := trace + [Posted(Some(body))];
      Wait();
    }

    method GetCatalog() returns (r: Option<seq<Record>>)
      requires Valid()
      modifies this`recent, this`trace, this`failures, this`arrived, this`issued, this`late, this`unseen
      ensures Valid() && old(issued) <= issued && trace == old(trace) + [CatalogRead(r)]
      ensures failures == old(failures) + if r.Some? then 0 else 1
      ensures forall g :: g in recent ==> g in old(recent) || g.id !in old(issued)
    {
      hide RequestsAreSound;
      var records: seq<Record> := *;
      var ok: bool := *;
      r := if ok then Some(records) else None;
      if !ok { failures := failures + 1; }
      SoundAppend(trace, CatalogRead(r));
      trace := trace + [CatalogRead(r)];
      Wait();
    }
  }

  // ------------------------------------------------------------ quiet polling

  /** Two polls in a row found nothing to delete; `true` is a poll that did. */
  predicate HasQuietPair(noisy: seq<bool>) {
    exists i :: 0 <= i < |noisy| - 1 && !noisy[i] && !noisy[i + 1]
  }

  function NoisyCount(noisy: seq<bool>): nat {
    if noisy == [] then 0 else NoisyCount(noisy[..|noisy| - 1]) + if noisy[|noisy| - 1] then 1 else 0
  }

  lemma {:induction false} FewNoisyPollsLeaveAQuietPair(noisy: seq<bool>)
    ensures HasQuietPair(noisy) ||
            |noisy| <= 2 * NoisyCount(noisy) + (if noisy != [] && !noisy[|noisy| - 1] then 1 else 0)
    decreases |noisy|
  {
    if noisy != [] {
      var rest := noisy[..|noisy| - 1];
      FewNoisyPollsLeaveAQuietPair(rest);
      if HasQuietPair(rest) {
        var i :| 0 <= i < |rest| - 1 && !rest[i] && !rest[i + 1];
        assert !noisy[i] && !noisy[i + 1];
      } else if rest != [] && !rest[|rest| - 1] && !noisy[|noisy| - 1] {
        assert !noisy[|rest| - 1] && !noisy[|rest| - 1 + 1];
      }
    }
  }

  /** A quiet and a noisy poll, `pairs` times. */
  function Alternating(pairs: nat): (noisy: seq<bool>)
    ensures |noisy| == pairs + pairs && NoisyCount(noisy) == pairs
    ensures !HasQuietPair(noisy) && (noisy != [] ==> noisy[|noisy| - 1])
  {
    if pairs == 0 then []
    else
      NoisyAppend(Alternating(pairs - 1), false);
      NoisyAppend(Alternating(pairs - 1) + [false], true);
      Alternating(pairs - 1) + [false] + [true]
  }

  lemma NoisyAppend(noisy: seq<bool>, last: bool)
    ensures NoisyCount(noisy + [last]) == NoisyCount(noisy) + if last then 1 else 0
    ensures !HasQuietPair(noisy) && (last || noisy == [] || noisy[|noisy| - 1]) ==> !HasQuietPair(noisy + [last])
  {
    var longer := noisy + [last];
    assert longer[..|noisy|] == noisy;
    assert forall i :: 0 <= i < |noisy| ==> longer[i] == noisy[i];
  }

  /**
   The attempts reconciliation needs: when at most `k` polls find something to
   delete, two quiet polls in a row are certain exactly from `2k + 2` attempts on.
   */
  lemma QuietPairIsCertainExactlyWhen(k: nat, attempts: nat)
    ensures (forall noisy: seq<bool> :: |noisy| == attempts && NoisyCount(noisy) <= k ==> HasQuietPair(noisy))
            <==> attempts >= 2 * k + 2
  {
    if attempts >= 2 * k + 2 {
      forall noisy: seq<bool> | |noisy| == attempts && NoisyCount(noisy) <= k ensures HasQuietPair(noisy) {
        FewNoisyPollsLeaveAQuietPair(noisy);
      }
    } else {
      var pairs := attempts / 2;
      var noisy := Alternating(pairs);
      NoisyAppend(noisy, false);
      if attempts != pairs + pairs { noisy := noisy + [false]; }
      assert |noisy| == attempts && NoisyCount(noisy) <= k && !HasQuietPair(noisy);
    }
  }

  // ---------------------------------------------------------------- the client

  class FixtureClient {
    const maxAttempts: nat
    const reconciliationAttempts: nat

    constructor (maxAttempts: nat, reconciliationAttempts: nat)
      ensures this.maxAttempts == maxAttempts && this.reconciliationAttempts == reconciliationAttempts
    {
      this.maxAttempts, this.reconciliationAttempts := maxAttempts, reconciliationAttempts;
    }

    /**
     One pass over the reserved gateways: refuse if one is not owned, else delete
     them all, going on after a failed delete. Answers whether there were any.
     */
    method DeleteReservedGatewaysOnce(api: AdminApi) returns (r: Result<bool, Failure>)
      requires api.Valid()
      modifies api`settled, api`recent, api`trace, api`failures, api`arrived, api`issued, api`late, api`unseen
      ensures api.Valid() && old(api.issued) <= api.issued
      ensures |api.trace| > |old(api.trace)| && api.trace[..|old(api.trace)|] == old(api.trace)
      ensures api.trace[|old(api.trace)|].GatewaysRead?
      ensures api.failures >= old(api.failures) && |api.recent| <= api.arrived - old(api.arrived)
      ensures r == Ok(false) ==> api.trace == old(api.trace) + [GatewaysRead(Some(api.settled))]
      ensures r.Ok? ==> NoneReserved(api.settled) && api.failures == old(api.failures)
      ensures r.Ok? ==> api.ReservedCount() + (if r.value then 1 else 0) <=
                          old(api.ReservedCount()) + (api.arrived - old(api.arrived))
      ensures r == Err(NotOwned) ==> |api.trace| == |old(api.trace)| + 1
      ensures ReservedAreOwned(old(api.settled)) && api.failures == old(api.failures) ==> r.Ok?
    {
      var listed := api.GetGateways();
      if listed.None? { return Err(RequestFailed); }
      var gateways := listed.value;
      assert LastGateways(api.trace) == gateways;
      ReservedIsZeroExactlyWhenNone(gateways);
      ReservedIsZeroExactlyWhenNone([]);
      var found, foreign := ScanReserved(gateways);
      if foreign { return Err(NotOwned); }
      hide Reserved, RequestsAreSound;
      var ok := DeleteReserved(api, gateways);
      ReservedIsZeroExactlyWhenNone(api.settled);
      return if ok then Ok(found) else Err(DeleteFailed);
    }

    method ScanReserved(gateways: seq<Gateway>) returns (found: bool, foreign: bool)
      ensures found <==> !NoneReserved(gateways)
      ensures foreign <==> !ReservedAreOwned(gateways)
    {
      found, foreign := false, false;
      for i := 0 to |gateways|
        invariant found <==> exists j :: 0 <= j < i && gateways[j].IsReserved()
        invariant foreign <==> exists j :: 0 <= j < i && gateways[j].IsReserved() && !gateways[j].IsOwned()
      {
        found := found || gateways[i].IsReserved();
        foreign := foreign || (gateways[i].IsReserved() && !gateways[i].IsOwned());
      }
    }

    /** Deletes every reserved gateway of a list just read, going on after a failure. */
    method DeleteReserved(api: AdminApi, gateways: seq<Gateway>) returns (ok: bool)
      requires api.Valid() && LastGateways(api.trace) == gateways == api.settled && ReservedAreOwned(gateways)
      modifies api`settled, api`recent, api`trace, api`failures, api`arrived, api`issued, api`late, api`unseen
      ensures api.Valid() && old(api.trace) <= api.trace && old(api.issued) <= api.issued
      ensures NoneReserved(gateways) ==> api.trace == old(api.trace) && api.settled == gateways && ok
      ensures ok <==> api.failures == old(api.failures)
      ensures api.failures >= old(api.failures)
      ensures api.arrived - old(api.arrived) >= 0 && api.arrived - old(api.arrived) >= |api.recent| - |old(api.recent)|
      ensures ok ==> NoneReserved(api.settled)
    {
      hide RequestsAreSound, LastGateways, Reserved, WithoutGateway, MayDeleteGateway;
      ok := true;
      for i := 0 to |gateways|
        invariant api.Valid() && LastGateways(api.trace) == gateways && old(api.issued) <= api.issued
        invariant old(api.trace) <= api.trace
        invariant NoneReserved(gateways) ==> api.trace == old(api.trace) && api.settled == gateways && ok
        invariant api.failures >= old(api.failures) && (ok <==> api.failures == old(api.failures))
        invariant api.arrived - old(api.arrived) >= 0
        invariant api.arrived - old(api.arrived) >= |api.recent| - |old(api.recent)|
        invariant forall g :: g in api.settled ==> g in gateways
        invariant ok ==> forall j :: 0 <= j < i && gateways[j].IsReserved() ==> gateways[j] !in api.settled
      {
        if gateways[i].IsReserved() {
          OwnedMayBeDeleted(api.trace, gateways[i]);
          var deleted := api.DeleteGateway(gateways[i].id);
          ok := ok && deleted;
        }
      }
    }

    /** Polls until two passes in a row find nothing. */
    method ReconcileReservedGateways(api: AdminApi) returns (r: Result<(), Failure>)
      requires api.Valid()
      modifies api`settled, api`recent, api`trace, api`failures, api`arrived, api`issued, api`late, api`unseen
      ensures api.Valid() && old(api.issued) <= api.issued
      ensures old(api.trace) <= api.trace
      ensures r.Ok? ==> (NoneReserved(api.Gateways()) <==> api.recent == [])
      ensures r.Ok? && api.outstanding == old(api.arrived) ==> NoneReserved(api.Gateways())
      ensures r.Ok? ==>
                var n := |api.trace|;
                n >= |old(api.trace)| + 2 &&
                forall i :: n - 2 <= i < n ==>
                  api.trace[i].GatewaysRead? && api.trace[i].listed.Some? && NoneReserved(api.trace[i].listed.value)
      ensures
        && ReservedAreOwned(old(api.settled)) && api.failures == old(api.failures)
        && reconciliationAttempts >= 2 * (old(api.ReservedCount()) + (api.arrived - old(api.arrived))) + 2
        ==> r.Ok?
      ensures
        && ReservedAreOwned(old(api.settled)) && api.failures == old(api.failures)
        && reconciliationAttempts >= 2 * (old(api.ReservedCount()) + (api.outstanding - old(api.arrived))) + 2
        ==> r.Ok?
    {
      hide RequestsAreSound, Reserved;
      var quiet := 0;
      ghost var noisy: nat := 0;
      for attempt := 0 to reconciliationAttempts
        invariant api.Valid() && old(api.issued) <= api.issued
        invariant old(api.trace) <= api.trace
        invariant quiet <= 1 && attempt <= 2 * noisy + quiet
        invariant api.failures == old(api.failures) && api.arrived >= old(api.arrived)
        invariant if attempt > 0 then NoneReserved(api.settled) else api.settled == old(api.settled)
        invariant attempt > 0 ==> |api.recent| <= api.arrived - old(api.arrived)
        invariant noisy + api.ReservedCount() <= old(api.ReservedCount()) + (api.arrived - old(api.arrived))
        invariant quiet == 1 ==>
                    |api.trace| > |old(api.trace)| &&
                    var last := api.trace[|api.trace| - 1];
                    last.GatewaysRead? && last.listed.Some? && NoneReserved(last.listed.value)
      {
        var deleted := DeleteReservedGatewaysOnce(api);
        if deleted.Err? { return Err(deleted.error); }
        if deleted.value {
          quiet := 0;
          noisy := noisy + 1;
        } else {
          quiet := quiet + 1;
          if quiet == REQUIRED_QUIET_POLLS {
            api.NoneReservedExactlyWhen();
            return Ok(());
          }
        }
      }
      return Err(NotQuiet);
    }

    /**
     Deletes the deterministic server if exactly one record has its id and is owned.
     Success is a cleanup in the sense of `CleansTo`: what can be left is only what
     has committed since its last request took effect.
     */
    method DeleteOwnedServer(api: AdminApi, id: string) returns (r: Result<(), Failure>)
      requires api.Valid()
      modifies api`known, api`recent, api`trace, api`failures, api`arrived, api`issued, api`late, api`unseen
      ensures api.Valid() && old(api.trace) <= api.trace && old(api.issued) <= api.issued
      ensures |api.trace| > |old(api.trace)| && api.trace[|old(api.trace)|].ServersRead?
      ensures r == Err(NotOwned) ==> |api.trace| == |old(api.trace)| + 1
      ensures forall g :: g in api.recent ==> g in old(api.recent) || g.id !in old(api.issued)
      ensures r.Ok? ==> id == SERVER_ID && NoServer(api.known)
      ensures r.Ok? ==> exists early: nat, between: nat ::
                          early + between + api.unseen == api.late - old(api.late)
                          && CleansTo(old(api.Servers()), api.known, early, between)
    {
      hide RequestsAreSound, CleansTo, Decide, Copies, NoServer;
      ghost var before := api.Servers();
      var listed := api.GetServers();
      if listed.None? { return Err(RequestFailed); }
      if id != SERVER_ID { return Err(NotOwned); }
      ghost var early := api.late - old(api.late) - api.unseen;
      assert LastServers(api.trace) == listed.value;
      match Decide(listed.value) {
        case Nothing =>
          CleansWhenNothing(before, early);
          return Ok(());
        case Refuse =>
          return Err(NotOwned);
        case Delete =>
          ghost var seen, committed := api.unseen, api.late;
          var ok := api.DeleteServer(id);
          if !ok { return Err(RequestFailed); }
          ghost var more := api.late - committed - api.unseen;
          CleansWhenDeleted(before, early, seen, more);
          return Ok(());
      }
    }

    method DeleteOwnedGateway(api: AdminApi, id: string) returns (r: Result<(), Failure>)
      requires api.Valid()
      modifies api`settled, api`recent, api`trace, api`failures, api`arrived, api`issued, api`late, api`unseen
      ensures api.Valid() && old(api.trace) <= api.trace && old(api.issued) <= api.issued
      ensures |old(api.trace)| < |api.trace| <= |old(api.trace)| + 2
      ensures api.trace[|old(api.trace)|].GatewaysRead?
      ensures |api.trace| == |old(api.trace)| + 2 ==>
                var listed := api.trace[|old(api.trace)|].listed;
                && listed.Some? && |GatewaysWithId(listed.value, id)| == 1
                && api.trace[|old(api.trace)| + 1] == GatewayDeleted(id)
      ensures r == Err(NotOwned) ==> |api.trace| == |old(api.trace)| + 1
      ensures r.Ok? && id in old(api.issued) ==> forall g :: g in api.Gateways() ==> g.id != id
    {
      hide RequestsAreSound;
      var listed := api.GetGateways();
      if listed.None? { return Err(RequestFailed); }
      var matching := GatewaysWithId(listed.value, id);
      if matching == [] {
        forall g | g in api.settled ensures g.id != id {
          assert g in matching <==> g.id == id;
        }
        return Ok(());
      }
      if |matching| != 1 || !matching[0].IsOwned() { return Err(NotOwned); }
      assert LastGateways(api.trace) == listed.value && matching[0] in matching;
      var ok := api.DeleteGateway(id);
      return if ok then Ok(()) else Err(RequestFailed);
    }

    /** Removes the server, then the gateway, attempting the second whatever the first did. */
    method Cleanup(api: AdminApi, fixture: Option<Fixture>) returns (r: Result<(), Failure>)
      requires api.Valid()
      modifies api`known, api`settled, api`recent, api`trace, api`failures, api`arrived, api`issued, api`late,
               api`unseen
      ensures api.Valid() && old(api.trace) <= api.trace && old(api.issued) <= api.issued
      ensures r.Ok? ==>
                && (fixture.Some? ==> fixture.value.serverId == SERVER_ID)
                && (NoServer(api.Servers()) <==> api.unseen == 0)
                && (api.undecided == 0 ==> NoServer(api.Servers()))
      ensures r.Ok? && fixture.Some? && fixture.value.gatewayId in old(api.issued) ==>
                forall g :: g in api.Gateways() ==> g.id != fixture.value.gatewayId
      ensures |api.trace| > |old(api.trace)| && api.trace[|old(api.trace)|].ServersRead?
      ensures fixture.Some? ==> exists i :: |old(api.trace)| < i < |api.trace| && api.trace[i].GatewaysRead?
    {
      hide RequestsAreSound, NoServer;
      var server := DeleteOwnedServer(api, if fixture.Some? then fixture.value.serverId else SERVER_ID);
      if server.Ok? { api.NoServerExactlyWhen(); }
      if fixture.None? { return server; }
      ghost var before := |api.trace|;
      var gateway := DeleteOwnedGateway(api, fixture.value.gatewayId);
      assert api.trace[before].GatewaysRead?;
      if server.Ok? { api.NoServerExactlyWhen(); }
      if server.Err? && gateway.Err? { return Err(BothFailed); }
      return if server.Err? then server else gateway;
    }

    /** Reads the three catalogs until the required identities of the gateway are in them. */
    method PollCatalogs(api: AdminApi, gatewayId: string) returns (r: Result<Catalog, Failure>)
      requires api.Valid()
      modifies api`recent, api`trace, api`failures, api`arrived, api`issued, api`late, api`unseen
      ensures api.Valid() && old(api.trace) <= api.trace && old(api.issued) <= api.issued
      ensures |api.trace| <= |old(api.trace)| + 3 * maxAttempts
      ensures forall i :: |old(api.trace)| <= i < |api.trace| ==> api.trace[i].CatalogRead?
      ensures forall g :: g in api.recent ==> g in old(api.recent) || g.id !in old(api.issued)
      ensures r.Ok? ==>
                && |api.trace| >= |old(api.trace)| + 3
                && RoundAt(api.trace, |api.trace| - 3, gatewayId) == Some(r.value) && r.value.Complete()
      ensures r.Err? && r.error == CatalogIncomplete ==>
                forall k: nat :: k < maxAttempts ==> GivesUpOn(api.trace, |old(api.trace)| + 3 * k, gatewayId)
      ensures r.Err? ==> r.error in {RequestFailed, CatalogIncomplete}
    {
      hide Catalog.Complete, RoundAt, RequestsAreSound, OfGateway, GivesUpOn;
      for attempt := 0 to maxAttempts
        invariant api.Valid() && old(api.trace) <= api.trace && old(api.issued) <= api.issued
        invariant |api.trace| == |old(api.trace)| + 3 * attempt
        invariant forall i :: |old(api.trace)| <= i < |api.trace| ==> api.trace[i].CatalogRead?
        invariant forall g :: g in api.recent ==> g in old(api.recent) || g.id !in old(api.issued)
        invariant forall k: nat :: k < attempt ==> GivesUpOn(api.trace, |old(api.trace)| + 3 * k, gatewayId)
      {
        ghost var before := api.trace;
        var tools := api.GetCatalog();
        if tools.None? { return Err(RequestFailed); }
        var resources := api.GetCatalog();
        if resources.None? { return Err(RequestFailed); }
        var prompts := api.GetCatalog();
        if prompts.None? { return Err(RequestFailed); }
        var filtered := Catalog(OfGateway(tools.value, gatewayId), OfGateway(resources.value, gatewayId),
                                OfGateway(prompts.value, gatewayId));
        RoundRead(api.trace, |before|, tools.value, resources.value, prompts.value, gatewayId);
        var missing := MissingIdentities(filtered);
        if missing == [] { return Ok(filtered); }
        GaveUp(api.trace, |before|, gatewayId, filtered);
        forall k: nat | k < attempt ensures GivesUpOn(api.trace, |old(api.trace)| + 3 * k, gatewayId) {
          StillGaveUp(before, api.trace, |old(api.trace)| + 3 * k, gatewayId);
        }
      }
      return Err(CatalogIncomplete);
    }

    /**
     Refreshes and polls the catalogs, and only when they are complete creates the
     server, associated with what the last poll found. Whatever the outcome, no other
     request of it creates a server.
     */
    method FinishProvision(api: AdminApi, fixture: Fixture) returns (r: Result<(), Failure>)
      requires api.Valid() && fixture.serverId == SERVER_ID
      modifies api`known, api`recent, api`trace, api`failures, api`arrived, api`issued, api`late, api`unseen,
               api`undecided
      ensures api.Valid() && old(api.trace) <= api.trace && old(api.issued) <= api.issued
      ensures |api.trace| > |old(api.trace)| && api.trace[|old(api.trace)|] == Posted(None)
      ensures forall i :: |old(api.trace)| <= i < |api.trace| && CreatesServer(api.trace[i]) ==>
                i == |api.trace| - 1 >= |old(api.trace)| + 4 && EndsInServer(api.trace, fixture)
      ensures forall g :: g in api.recent ==> g in old(api.recent) || g.id !in old(api.issued)
      ensures r.Ok? || r == Err(ServerNotCreated) <==> CreatesServer(api.trace[|api.trace| - 1])
      ensures r.Ok? ==> exists s :: s in api.Servers() && s.id == fixture.serverId && s.IsOwned()
      ensures r != Err(ServerNotCreated) ==> api.undecided == old(api.undecided)
    {
      hide RequestsAreSound, RoundAt, Catalog.Complete;
      var refreshed := api.Refresh();
      if !refreshed { return Err(RequestFailed); }
      var catalogs := PollCatalogs(api, fixture.gatewayId);
      if catalogs.Err? { return Err(catalogs.error); }
      ghost var polled := api.trace;
      assert JustPolled(api.trace, fixture.gatewayId, Creation(FIXTURE_SERVER, catalogs.value.Ids()));
      var ok := api.CreateServer(Creation(FIXTURE_SERVER, catalogs.value.Ids()));
      RoundKept(polled, api.trace, |polled| - 3, fixture.gatewayId);
      return if ok then Ok(()) else Err(ServerNotCreated);
    }

    /** Finishes a fixture whose gateway has been created, or takes it down again. */
    method FinishOrClean(api: AdminApi, fixture: Fixture) returns (r: Result<Fixture, ProvisionFailure>)
      requires api.Valid() && fixture.serverId == SERVER_ID && fixture.gatewayId in api.issued
      modifies api`known, api`settled, api`recent, api`trace, api`failures, api`arrived, api`issued, api`late,
               api`unseen, api`undecided
      ensures api.Valid() && old(api.trace) <= api.trace
      ensures r.Ok? ==>
                && r.value == fixture && EndsInServer(api.trace, fixture) && api.settled == old(api.settled)
                && (exists s :: s in api.Servers() && s.id == SERVER_ID && s.IsOwned())
      ensures r.Err? ==> r.error.FinishFailed?
      ensures r.Err? && r.error.cleaned.Ok? ==>
                && (forall g :: g in api.Gateways() ==> g.id != fixture.gatewayId)
                && (NoServer(api.Servers()) <==> api.unseen == 0)
                && (old(api.undecided) == 0 && r.error.why != ServerNotCreated ==> NoServer(api.Servers()))
    {
      hide RequestsAreSound, Reserved, LastGateways, LastServers, EndsInServer, NoServer, CleansTo, Copies, RoundAt;
      var finished := FinishProvision(api, fixture);
      if finished.Ok? { return Ok(fixture); }
      var cleaned := Cleanup(api, Some(fixture));
      return Err(FinishFailed(finished.error, cleaned));
    }

    /**
     Creates the gateway and the server. When a later step fails and the cleanup
     succeeds, the gateway that was created is gone, and the server is left exactly
     when a create of it has committed after the cleanup's last request about
     servers; that takes a create without an answer, this run's own or an earlier
     one. When the create of the gateway itself seems to fail and reconciliation
     succeeds, a gateway with the reserved name is left exactly when one has
     committed after the last poll.
     */
    method Provision(api: AdminApi, backendUrl: string) returns (r: Result<Fixture, ProvisionFailure>)
      requires api.Valid()
      modifies api
      ensures api.Valid() && old(api.trace) <= api.trace
      ensures r == Err(WrongBackend) <==> backendUrl != BACKEND_URL
      ensures r == Err(WrongBackend) ==> api.trace == old(api.trace)
      ensures r.Ok? ==>
                && r.value.serverId == SERVER_ID && r.value.gatewayId !in old(api.issued)
                && EndsInServer(api.trace, r.value)
                && (exists g :: g in api.Gateways() && g.id == r.value.gatewayId && g.IsOwned())
                && (exists s :: s in api.Servers() && s.id == SERVER_ID && s.IsOwned())
      ensures r.Err? && r.error.FinishFailed? && r.error.cleaned.Ok? ==>
                && api.created.Some? && (forall g :: g in api.Gateways() ==> g.id != api.created.value)
                && (NoServer(api.Servers()) <==> api.unseen == 0)
                && (old(api.undecided) == 0 && r.error.why != ServerNotCreated ==> NoServer(api.Servers()))
      ensures r.Err? && r.error.CreateFailed? && r.error.reconciled.Ok? ==>
                && (NoneReserved(api.Gateways()) <==> api.recent == [])
                && (api.outstanding == 0 ==> NoneReserved(api.Gateways()))
    {
      hide RequestsAreSound, Reserved, LastGateways, LastServers, EndsInServer, NoServer, CleansTo, NoneReserved,
           Copies, RoundAt, ReservedAreOwned;
      if backendUrl != BACKEND_URL { return Err(WrongBackend); }
      var cleared := DeleteOwnedServer(api, SERVER_ID);
      if cleared.Err? { return Err(CleanupFirst(cleared.error)); }
      var pass := DeleteReservedGatewaysOnce(api);
      if pass.Err? { return Err(CleanupFirst(pass.error)); }
      var gateway := api.CreateGateway();
      if gateway.None? || !gateway.value.IsOwned() {
        var reconciled := ReconcileReservedGateways(api);
        return Err(CreateFailed(reconciled));
      }
      var fixture := Fixture(gateway.value.id, SERVER_ID);
      assert gateway.value in api.Gateways();
      r := FinishOrClean(api, fixture);
    }
  }
}
