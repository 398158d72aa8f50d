/**
 * The composer's save and autosave against the server's optimistic locking:
 * components/content/composer.tsx:96-104, 269-284, 376-453,
 * lib/content/service.ts:345-413, 463-466 and lib/content/link-campaign.ts:47-93, 115-126.
 *
 * A request is one step, and no autosave starts while a save's first request is under way;
 * edits, other writers and autosaves come in between everything else.
 */
module Composer {
  import opened Lists

  /** Automations by id, and those the inline form makes, in the order it makes them. */
  datatype AutomationId = Stored(id: nat) | Made(n: nat)

  /** A campaign of either engine. */
  datatype Campaign = Automation(a: AutomationId) | Trigger(t: nat)

  /** `draft.linkCampaign`: nothing, the inline form (filled in or not), or a campaign by id. */
  datatype Link = NoLink | NewCampaign(valid: bool) | Linked(campaign: Campaign)

  datatype Purpose = ForSave | ForAutosave

  /** What the body says about the campaign: left alone, none, this one, or a new one. */
  datatype BodyLink = Leave | Detach | Attach(campaign: Campaign) | Make

  function BodyOf(link: Link, purpose: Purpose): BodyLink {
    match link
    case NewCampaign(_) => if purpose == ForSave then Make else Leave
    case Linked(campaign) => Attach(campaign)
    case NoLink => Detach
  }

  datatype Request = Create(link: BodyLink) | Patch(id: nat, version: nat, link: BodyLink) | Action(id: nat)

  /** How far the server got with the campaign of a request. */
  datatype Part = Untouched | Cleared | Carried

  /**
   * The server's answer. An edit moves the version by one, and once more when it voids a
   * review. A dropped request was carried out, the campaign perhaps, but the client is told
   * it failed: the reply is lost, or the server throws after writing the row.
   */
  datatype Reply = Accepted(more: nat) | Refused | Dropped(more: nat, part: Part)

  /** `returned` is the version the client reads from the answer. */
  datatype Exchange = Exchange(auto: bool, request: Request, reply: Reply, returned: Option<nat>)

  datatype Phase =
    | Idle
    | Saving(link: Link, target: Option<nat>, version: nat, act: bool)
    | Syncing(id: nat, act: bool)
    | Acting(id: nat, problem: bool)
    | Closed

  /** `serverId`, `versionRef`, the draft's link and the dirty flag. */
  datatype Client = Client(serverId: Option<nat>, version: Option<nat>, link: Link, dirty: bool, phase: Phase)

  /** A post on the server: its version, and the campaigns of either engine parked on it. */
  datatype Row = Row(version: nat, automation: Option<AutomationId>, trigger: Option<nat>)

  /** `made` counts the campaigns created inline, `opens` how often their form was opened. */
  datatype World = World(client: Client, rows: seq<Row>, made: nat, opens: nat, log: seq<Exchange>)

  datatype Event =
    | EditLink(link: Link)
    | Edit
    | Click(act: bool)
    | Answer(reply: Reply)
    | Targets(problem: bool, instagram: bool)
    | Acted(reply: Reply, failures: bool)
    | Autosave(ready: bool, reply: Reply)
    | Elsewhere(id: nat, edits: bool, automation: Option<AutomationId>, trigger: Option<nat>)

  predicate Enabled(w: World, e: Event) {
    match e
    case Click(_) => w.client.phase.Idle?
    case Answer(_) => w.client.phase.Saving?
    case Targets(_, _) => w.client.phase.Syncing?
    case Acted(_, _) => w.client.phase.Acting?
    case Autosave(_, _) => !w.client.phase.Saving? && !w.client.phase.Closed?
    case Elsewhere(id, _, _, _) => id < |w.rows|
    case _ => !w.client.phase.Closed?
  }

  // ---------------------------------------------------------------- the server

  /** A patch of another version is refused: `row.version !== input.version`. */
  function Effective(w: World, request: Request, reply: Reply): Reply {
    if request.Patch? && (request.id >= |w.rows| || w.rows[request.id].version != request.version) then Refused else reply
  }

  function Bumped(rows: seq<Row>, id: nat, more: nat): (r: seq<Row>)
    ensures |r| == |rows|
  {
    if id < |rows| then rows[id := rows[id].(version := rows[id].version + 1 + more)] else rows
  }

  function Without(row: Row, c: Campaign): Row {
    match c
    case Automation(a) => if row.automation == Some(a) then row.(automation := None) else row
    case Trigger(t) => if row.trigger == Some(t) then row.(trigger := None) else row
  }

  function With(row: Row, c: Campaign): Row {
    match c
    case Automation(a) => row.(automation := Some(a))
    case Trigger(t) => row.(trigger := Some(t))
  }

  /** The post lets go of the other campaigns of c's engine. */
  function MadeRoom(row: Row, c: Campaign): Row {
    match c
    case Automation(a) => if row.automation == Some(a) then row else row.(automation := None)
    case Trigger(t) => if row.trigger == Some(t) then row else row.(trigger := None)
  }

  /** A campaign is parked on one post: attaching it here takes it off any other. */
  function Attached(rows: seq<Row>, id: nat, c: Campaign): (r: seq<Row>)
    ensures |r| == |rows|
  {
    seq(|rows|, i requires 0 <= i < |rows| => if i == id then With(rows[i], c) else Without(rows[i], c))
  }

  /** `attachCampaignToPost`, as far as it gets; n numbers a campaign it makes. */
  function Relinked(rows: seq<Row>, id: nat, link: BodyLink, part: Part, n: nat): (r: seq<Row>)
    ensures |r| == |rows|
  {
    if id >= |rows| || link.Leave? || part.Untouched? then rows
    else
      match link
      case Attach(c) =>
        if part.Carried? then Attached(rows, id, c) else rows[id := MadeRoom(rows[id], c)]
      case Make => rows[id := Row(rows[id].version, if part.Carried? then Some(Made(n)) else None, None)]
      case _ => rows[id := Row(rows[id].version, None, None)]
  }

  function PartOf(reply: Reply): Part {
    match reply
    case Accepted(_) => Carried
    case Refused => Untouched
    case Dropped(_, part) => part
  }

  function Written(rows: seq<Row>, request: Request, reply: Reply, n: nat): seq<Row>
    requires !reply.Refused?
  {
    match request
    case Create(link) => Relinked(rows + [Row(1, None, None)], |rows|, link, PartOf(reply), n)
    case Patch(id, _, link) => Relinked(Bumped(rows, id, reply.more), id, link, PartOf(reply), n)
    case Action(id) => Bumped(rows, id, reply.more)
  }

  /** One request: rows, campaigns and the log move; the client is not touched. */
  function Serve(w: World, auto: bool, request: Request, wished: Reply): World {
    var reply := Effective(w, request, wished);
    var rows := if reply.Refused? then w.rows else Written(w.rows, request, reply, w.made);
    var made := !request.Action? && request.link == Make && PartOf(reply).Carried?;
    var returned :=
      if !reply.Accepted? || request.Action? then None
      else if request.Create? then Some(1)
      else if request.id < |rows| then Some(rows[request.id].version) else None;
    w.(rows := rows, made := if made then w.made + 1 else w.made, log := w.log + [Exchange(auto, request, reply, returned)])
  }

  function Last(w: World): Exchange
    requires w.log != []
  {
    w.log[|w.log| - 1]
  }

  // ---------------------------------------------------------------- the client

  function At(w: World, phase: Phase): World { w.(client := w.client.(phase := phase)) }

  function VersionSent(c: Client): nat { if c.version.Some? then c.version.value else 1 }

  function ClickStep(w: World, act: bool): World {
    if w.client.link == NewCampaign(false) then w
    else At(w, Saving(w.client.link, w.client.serverId, VersionSent(w.client), act))
  }

  function RequestOf(p: Phase): Request
    requires p.Saving?
  {
    var body := BodyOf(p.link, ForSave);
    if p.target.Some? then Patch(p.target.value, p.version, body) else Create(body)
  }

  function AnswerStep(w: World, reply: Reply): World
    requires w.client.phase.Saving?
  {
    var p := w.client.phase;
    var s := Serve(w, false, RequestOf(p), reply);
    if !Last(s).reply.Accepted? then At(s, Idle)
    else
      var id := if p.target.Some? then p.target.value else |w.rows|;
      s.(client := Client(Some(id), Last(s).returned, if p.link.NewCampaign? then Linked(Automation(Made(w.made))) else w.client.link,
                          w.client.dirty, Syncing(id, p.act)))
  }

  /** The tail of `save`: the draft is clean, and the composer closes unless something is left to report. */
  function Finish(w: World, stay: bool): World {
    w.(client := w.client.(dirty := false, phase := if stay then Idle else Closed))
  }

  function TargetsStep(w: World, problem: bool, instagram: bool): World
    requires w.client.phase.Syncing?
  {
    var p := w.client.phase;
    if problem && !instagram then At(w, Idle)
    else if p.act then At(w, Acting(p.id, problem))
    else Finish(w, problem)
  }

  /** The reply to an action carries a version too, which the composer does not read. */
  function ActedStep(w: World, reply: Reply, failures: bool): World
    requires w.client.phase.Acting?
  {
    var p := w.client.phase;
    var s := Serve(w, false, Action(p.id), reply);
    if reply.Accepted? then Finish(s, failures || p.problem) else At(s, Idle)
  }

  /** `ready`: neither locked nor blocked. */
  function AutosaveStep(w: World, ready: bool, reply: Reply): World {
    var c := w.client;
    if !c.dirty then w
    else
      var clean := w.(client := c.(dirty := false));
      if c.serverId.None? || c.version.None? || !ready then clean
      else
        var s := Serve(clean, true, Patch(c.serverId.value, c.version.value, BodyOf(c.link, ForAutosave)), reply);
        if Last(s).reply.Accepted? then s.(client := s.client.(version := Last(s).returned)) else s
  }

  function Step(w: World, e: Event): World
    requires Enabled(w, e)
  {
    match e
    case EditLink(link) =>
      w.(client := w.client.(link := link, dirty := true),
         opens := if link.NewCampaign? && !w.client.link.NewCampaign? then w.opens + 1 else w.opens)
    case Edit => w.(client := w.client.(dirty := true))
    case Click(act) => ClickStep(w, act)
    case Answer(reply) => AnswerStep(w, reply)
    case Targets(problem, instagram) => TargetsStep(w, problem, instagram)
    case Acted(reply, failures) => ActedStep(w, reply, failures)
    case Autosave(ready, reply) => AutosaveStep(w, ready, reply)
    case Elsewhere(id, edits, automation, trigger) =>
      w.(rows := w.rows[id := Row(if edits then w.rows[id].version + 1 else w.rows[id].version, automation, trigger)])
  }

  ghost predicate IsRun(w: World, events: seq<Event>)
    decreases |events|
  {
    events == [] || (Enabled(w, events[0]) && IsRun(Step(w, events[0]), events[1..]))
  }

  function After(w: World, events: seq<Event>): World
    requires IsRun(w, events)
    decreases |events|
  {
    if events == [] then w else After(Step(w, events[0]), events[1..])
  }

  /** A composer for a new post; the backup may bring a campaign form that was open. */
  function NewPost(link: Link): World {
    World(Client(None, None, link, false, Idle), [], 0, if link.NewCampaign? then 1 else 0, [])
  }

  /** A composer for a stored post; `known` unless reading the post failed. */
  function StoredPost(row: Row, known: bool, link: Link): World {
    World(Client(Some(0), if known then Some(row.version) else None, link, false, Idle), [row], 0, if link.NewCampaign? then 1 else 0, [])
  }

  ghost predicate Opened(w: World) {
    (exists link :: w == NewPost(link)) || (exists row, known, link :: w == StoredPost(row, known, link))
  }

  // ---------------------------------------------------------------- reading the log

  function Front(log: seq<Exchange>): seq<Exchange>
    requires log != []
  {
    log[..|log| - 1]
  }

  /** The version last returned to the client, starting from what it read when it opened. */
  function LastReturned(log: seq<Exchange>, start: Option<nat>): Option<nat>
    decreases |log|
  {
    if log == [] then start
    else if log[|log| - 1].returned.Some? then log[|log| - 1].returned
    else LastReturned(Front(log), start)
  }

  /** The version of every patch is the one last returned before it, or 1 when there was none. */
  predicate PatchesCarryLast(log: seq<Exchange>, start: Option<nat>)
    decreases |log|
  {
    log == [] ||
    (PatchesCarryLast(Front(log), start) &&
     var r := log[|log| - 1].request; var last := LastReturned(Front(log), start);
     r.Patch? ==> r.version == if last.Some? then last.value else 1)
  }

  function Count(log: seq<Exchange>, p: Exchange -> bool): nat
    decreases |log|
  {
    if log == [] then 0 else Count(Front(log), p) + if p(log[|log| - 1]) then 1 else 0
  }

  predicate LostPost(x: Exchange) { x.request.Create? && x.reply.Dropped? }

  predicate KnownPost(x: Exchange) { x.request.Create? && x.reply.Accepted? }

  predicate LostCampaign(x: Exchange) {
    !x.request.Action? && x.request.link == Make && x.reply.Dropped? && x.reply.part.Carried?
  }

  /** An accepted creation is the last one: everything after it names that post. */
  ghost predicate CreatesOnce(log: seq<Exchange>) {
    forall i, j :: 0 <= i < j < |log| && KnownPost(log[i]) ==> !log[j].request.Create?
  }

  ghost predicate AutosavesMakeNothing(log: seq<Exchange>) {
    forall i :: 0 <= i < |log| && log[i].auto ==> log[i].request.Patch? && log[i].request.link != Make
  }

  // ---------------------------------------------------------------- the invariant

  /** Whether an inline form is still waiting to become a campaign. */
  predicate Waiting(c: Client) {
    c.link.NewCampaign? || (c.phase.Saving? && c.phase.link.NewCampaign?)
  }

  predicate SaveIsCurrent(c: Client) {
    c.phase.Saving? ==> c.phase.target == c.serverId && c.phase.version == VersionSent(c) && c.phase.link != NewCampaign(false)
  }

  predicate SavedIsKnown(c: Client) {
    (c.phase.Syncing? || c.phase.Acting?) ==> c.serverId == Some(c.phase.id)
  }

  function Known(c: Client): nat { if c.serverId.Some? then 1 else 0 }

  function WaitingCount(c: Client): nat { if Waiting(c) then 1 else 0 }

  ghost predicate ClientOk(w: World, start: Option<nat>) {
    && SaveIsCurrent(w.client) && SavedIsKnown(w.client)
    && (w.client.serverId.Some? ==> w.client.serverId.value < |w.rows|)
    && w.client.version == LastReturned(w.log, start)
  }

  /** `stored`: the number of posts there were when the composer opened, 0 or 1. */
  ghost predicate CountsOk(w: World, stored: nat) {
    && |w.rows| == stored + Count(w.log, LostPost) + Count(w.log, KnownPost)
    && Known(w.client) == stored + Count(w.log, KnownPost)
    && w.made + WaitingCount(w.client) <= w.opens + Count(w.log, LostCampaign)
  }

  ghost predicate LogOk(w: World, start: Option<nat>) {
    && PatchesCarryLast(w.log, start) && CreatesOnce(w.log) && AutosavesMakeNothing(w.log)
    && (w.client.serverId.None? ==> forall i :: 0 <= i < |w.log| ==> !KnownPost(w.log[i]))
  }

  ghost predicate Inv(w: World, start: Option<nat>, stored: nat) {
    ClientOk(w, start) && CountsOk(w, stored) && LogOk(w, start)
  }

  predicate CarriesLast(request: Request, log: seq<Exchange>, start: Option<nat>) {
    var last := LastReturned(log, start);
    request.Patch? ==> request.version == if last.Some? then last.value else 1
  }

  lemma Appended(log: seq<Exchange>, x: Exchange, start: Option<nat>)
    ensures LastReturned(log + [x], start) == if x.returned.Some? then x.returned else LastReturned(log, start)
    ensures PatchesCarryLast(log + [x], start) <==> (PatchesCarryLast(log, start) && CarriesLast(x.request, log, start))
    ensures forall p :: Count(log + [x], p) == Count(log, p) + if p(x) then 1 else 0
  {
    assert Front(log + [x]) == log;
  }

  /** What any request the client may send leaves of the log's properties. */
  lemma ServeKeepsLog(w: World, auto: bool, request: Request, reply: Reply, start: Option<nat>)
    requires LogOk(w, start) && CarriesLast(request, w.log, start)
    requires request.Create? ==> w.client.serverId.None?
    requires auto ==> request.Patch? && request.link != Make
    ensures var s := Serve(w, auto, request, reply);
      && PatchesCarryLast(s.log, start) && CreatesOnce(s.log) && AutosavesMakeNothing(s.log)
      && (w.client.serverId.None? && !KnownPost(Last(s)) ==> forall i :: 0 <= i < |s.log| ==> !KnownPost(s.log[i]))
      && LastReturned(s.log, start) == (if Last(s).returned.Some? then Last(s).returned else LastReturned(w.log, start))
  {
    var s := Serve(w, auto, request, reply);
    Appended(w.log, Last(s), start);
  }

  lemma ServeCounts(w: World, auto: bool, request: Request, reply: Reply)
    ensures var s := Serve(w, auto, request, reply); var x := Last(s);
      && s.log == w.log + [x] && x == Exchange(auto, request, Effective(w, request, reply), x.returned)
      && (x.returned.Some? ==> x.reply.Accepted? && !request.Action?)
      && (x.reply.Accepted? && request.Patch? ==> x.returned.Some?)
      && (x.reply.Accepted? && request.Create? ==> x.returned.Some?)
      && |s.rows| - |w.rows| == (Count(s.log, LostPost) - Count(w.log, LostPost)) + (Count(s.log, KnownPost) - Count(w.log, KnownPost))
      && Count(s.log, KnownPost) == Count(w.log, KnownPost) + (if KnownPost(x) then 1 else 0)
      && s.made - w.made == (if x.reply.Accepted? && !request.Action? && request.link == Make then 1 else 0)
           + (Count(s.log, LostCampaign) - Count(w.log, LostCampaign))
  {
    var s := Serve(w, auto, request, reply);
    Appended(w.log, Last(s), None);
    assert Count(s.log, LostPost) == Count(w.log, LostPost) + if LostPost(Last(s)) then 1 else 0;
    assert Count(s.log, KnownPost) == Count(w.log, KnownPost) + if KnownPost(Last(s)) then 1 else 0;
    assert Count(s.log, LostCampaign) == Count(w.log, LostCampaign) + if LostCampaign(Last(s)) then 1 else 0;
  }

  lemma AnswerKeepsInv(w: World, reply: Reply, start: Option<nat>, stored: nat)
    requires Inv(w, start, stored) && w.client.phase.Saving?
    ensures Inv(AnswerStep(w, reply), start, stored)
  {
    hide Count, PatchesCarryLast, LastReturned, CreatesOnce, AutosavesMakeNothing;
    var request := RequestOf(w.client.phase);
    ServeKeepsLog(w, false, request, reply, start);
    ServeCounts(w, false, request, reply);
  }

  lemma ActedKeepsInv(w: World, reply: Reply, failures: bool, start: Option<nat>, stored: nat)
    requires Inv(w, start, stored) && w.client.phase.Acting?
    ensures Inv(ActedStep(w, reply, failures), start, stored)
  {
    hide Count, PatchesCarryLast, LastReturned, CreatesOnce, AutosavesMakeNothing;
    ServeKeepsLog(w, false, Action(w.client.phase.id), reply, start);
    ServeCounts(w, false, Action(w.client.phase.id), reply);
  }

  lemma AutosaveKeepsInv(w: World, ready: bool, reply: Reply, start: Option<nat>, stored: nat)
    requires Inv(w, start, stored) && Enabled(w, Autosave(ready, reply))
    ensures Inv(AutosaveStep(w, ready, reply), start, stored)
  {
    hide Count, PatchesCarryLast, LastReturned, CreatesOnce, AutosavesMakeNothing;
    var c := w.client;
    if c.dirty && c.serverId.Some? && c.version.Some? && ready {
      var clean := w.(client := c.(dirty := false));
      var request := Patch(c.serverId.value, c.version.value, BodyOf(c.link, ForAutosave));
      ServeKeepsLog(clean, true, request, reply, start);
      ServeCounts(clean, true, request, reply);
    }
  }

  lemma StepKeepsInv(w: World, e: Event, start: Option<nat>, stored: nat)
    requires Inv(w, start, stored) && Enabled(w, e)
    ensures Inv(Step(w, e), start, stored)
  {
    hide Count, PatchesCarryLast, LastReturned, CreatesOnce, AutosavesMakeNothing, AnswerStep, ActedStep, AutosaveStep;
    match e
    case Answer(reply) => AnswerKeepsInv(w, reply, start, stored);
    case Acted(reply, failures) => ActedKeepsInv(w, reply, failures, start, stored);
    case Autosave(ready, reply) => AutosaveKeepsInv(w, ready, reply, start, stored);
    case _ =>
  }

  lemma {:induction false} RunKeepsInv(w: World, events: seq<Event>, start: Option<nat>, stored: nat)
    requires Inv(w, start, stored) && IsRun(w, events)
    ensures Inv(After(w, events), start, stored)
    decreases |events|
  {
    hide Inv, Step, Enabled;
    if events != [] {
      StepKeepsInv(w, events[0], start, stored);
      RunKeepsInv(Step(w, events[0]), events[1..], start, stored);
    }
  }

  // ---------------------------------------------------------------- what every run keeps

  /**
   * A composer for a new post: the posts on the server are the one it knows and those whose
   * creation it was told had failed, so there is at most one while no such reply was lost.
   */
  lemma PostsAreKnownOrLost(link: Link, events: seq<Event>)
    requires IsRun(NewPost(link), events)
    ensures var w := After(NewPost(link), events);
      && |w.rows| == Count(w.log, LostPost) + Known(w.client)
      && CreatesOnce(w.log)
      && PatchesCarryLast(w.log, None)
  {
    RunKeepsInv(NewPost(link), events, None, 0);
  }

  /** A composer for a stored post creates none, and patches only with the versions it was given. */
  lemma StoredPostStaysOne(row: Row, known: bool, link: Link, events: seq<Event>)
    requires IsRun(StoredPost(row, known, link), events)
    ensures var w := After(StoredPost(row, known, link), events);
      |w.rows| == 1 && PatchesCarryLast(w.log, if known then Some(row.version) else None)
  {
    RunKeepsInv(StoredPost(row, known, link), events, if known then Some(row.version) else None, 1);
    StoredNeverCreates(StoredPost(row, known, link), events);
  }

  lemma {:induction false} StoredNeverCreates(w: World, events: seq<Event>)
    requires IsRun(w, events) && w.client.serverId.Some? && (w.client.phase.Saving? ==> w.client.phase.target.Some?)
    ensures |After(w, events).rows| == |w.rows|
    decreases |events|
  {
    if events != [] {
      StoredNeverCreates(Step(w, events[0]), events[1..]);
    }
  }

  /**
   * Autosave never sends a new campaign, and the campaigns created inline are at most the
   * times the form was opened plus the creations whose reply was lost.
   */
  lemma CampaignsFollowTheForm(w: World, events: seq<Event>)
    requires Opened(w) && IsRun(w, events)
    ensures var v := After(w, events);
      && AutosavesMakeNothing(v.log)
      && w.opens == (if w.client.link.NewCampaign? then 1 else 0)
      && v.made <= v.opens + Count(v.log, LostCampaign)
      && (Waiting(v.client) ==> v.made < v.opens + Count(v.log, LostCampaign))
  {
    RunKeepsInv(w, events, w.client.version, |w.rows|);
  }

  // ---------------------------------------------------------------- the post's campaign

  /** The campaign the composer is shown for a post: `linkedCampaignSummary`. */
  function Summary(row: Row): Option<Campaign> {
    if row.automation.Some? then Some(Automation(row.automation.value))
    else if row.trigger.Some? then Some(Trigger(row.trigger.value))
    else None
  }

  /** What a request that went well leaves on the post it was for, which stood as `before`. */
  ghost predicate HoldsLink(link: Link, auto: bool, before: Row, after: Row, made: nat) {
    match link
    case NoLink => after.automation == None && after.trigger == None
    case Linked(Trigger(t)) => after.trigger == Some(t) && after.automation == before.automation
    case Linked(Automation(a)) => after.automation == Some(a) && after.trigger == before.trigger
    case NewCampaign(_) =>
      if auto then after.automation == before.automation && after.trigger == before.trigger
      else after.automation == Some(Made(made)) && after.trigger == None
  }

  /** The post a save is for, before it: the stored one, or a new one without campaigns. */
  ghost function PostBefore(w: World): Row
    requires w.client.phase.Saving?
  {
    var target := w.client.phase.target;
    if target.Some? && target.value < |w.rows| then w.rows[target.value] else Row(0, None, None)
  }

  /** No step of these runs is the answer to the save. */
  ghost predicate Unanswered(events: seq<Event>) {
    forall e :: e in events ==> !e.Answer?
  }

  /** While a save waits for its answer, edits and other writers do not reach what it has sent. */
  lemma {:induction false} SaveWaits(w: World, events: seq<Event>)
    requires w.client.phase.Saving? && IsRun(w, events) && Unanswered(events)
    ensures After(w, events).client.phase == w.client.phase && After(w, events).made == w.made
    decreases |events|
  {
    if events != [] {
      assert events[0] in events;
      assert Step(w, events[0]).client.phase == w.client.phase;
      SaveWaits(Step(w, events[0]), events[1..]);
    }
  }

  /**
   * From every state: a save that is accepted, whatever happens between the button and the
   * answer, leaves the post with the campaign the draft had when the button was pressed:
   * that one, none, or the one just made, which the draft then links.
   */
  lemma AcceptedSaveKeepsTheDraftsLink(pressed: World, act: bool, between: seq<Event>, reply: Reply)
    requires Enabled(pressed, Click(act)) && Step(pressed, Click(act)).client.phase.Saving?
    requires IsRun(Step(pressed, Click(act)), between) && Unanswered(between)
    ensures var w := After(Step(pressed, Click(act)), between); var link := pressed.client.link;
      Enabled(w, Answer(reply)) &&
      var after := Step(w, Answer(reply));
      && (after.client.phase.Syncing? <==> Last(after).reply.Accepted?)
      && (Last(after).reply.Accepted? ==>
        var id := after.client.phase.id;
        && after.client.serverId == Some(id) && id < |after.rows|
        && HoldsLink(link, false, PostBefore(w), after.rows[id], pressed.made)
        && (link.NewCampaign? ==> after.client.link == Linked(Automation(Made(pressed.made))) && after.made == pressed.made + 1)
        && (!link.NewCampaign? ==> after.client.link == w.client.link && after.made == pressed.made))
  {
    SaveWaits(ClickStep(pressed, act), between);
    AcceptedAnswer(After(ClickStep(pressed, act), between), reply);
  }

  lemma AcceptedAnswer(w: World, reply: Reply)
    requires w.client.phase.Saving?
    ensures var after := AnswerStep(w, reply); var link := w.client.phase.link;
      && (after.client.phase.Syncing? <==> Last(after).reply.Accepted?)
      && (Last(after).reply.Accepted? ==>
        var id := after.client.phase.id;
        && after.client.serverId == Some(id) && id < |after.rows|
        && HoldsLink(link, false, PostBefore(w), after.rows[id], w.made)
        && (link.NewCampaign? ==> after.client.link == Linked(Automation(Made(w.made))) && after.made == w.made + 1)
        && (!link.NewCampaign? ==> after.client.link == w.client.link && after.made == w.made))
  {}

  /** An accepted autosave does the same with the draft as it is, and leaves the post's campaign alone while a new one is filled in. */
  lemma AcceptedAutosaveKeepsTheDraftsLink(w: World, ready: bool, reply: Reply)
    requires Enabled(w, Autosave(ready, reply))
    ensures var after := Step(w, Autosave(ready, reply));
      |after.log| > |w.log| && Last(after).reply.Accepted? ==>
        && w.client.serverId.Some? && w.client.serverId.value < |w.rows| == |after.rows|
        && HoldsLink(w.client.link, true, w.rows[w.client.serverId.value], after.rows[w.client.serverId.value], w.made)
        && after.client.link == w.client.link && after.made == w.made
  {}

  /**
   * Only the engine of the campaign is looked at: after an accepted save or autosave the
   * post shows the campaign asked for exactly when it is an automation or the post held none.
   */
  lemma ShowsTheCampaignIff(campaign: Campaign, auto: bool, before: Row, after: Row, made: nat)
    requires HoldsLink(Linked(campaign), auto, before, after, made)
    ensures Summary(after) == Some(campaign) <==> campaign.Automation? || before.automation.None?
  {}

  /** A post with an automation is switched to a trigger campaign: both are parked on it, and it still shows the automation. */
  lemma SwitchingEnginesKeepsBoth(a: nat, b: nat, version: nat)
    ensures var w := StoredPost(Row(version, Some(Stored(a)), None), true, Linked(Automation(Stored(a))));
      var edited := Step(w, EditLink(Linked(Trigger(b))));
      var saved := AnswerStep(ClickStep(edited, false), Accepted(0));
      && saved.rows == [Row(version + 1, Some(Stored(a)), Some(b))]
      && Summary(saved.rows[0]) == Some(Automation(Stored(a)))
  {}

  /** What a request that fails on the way leaves of the campaigns: nothing done, the old ones taken off, or all of it. */
  ghost predicate LinkGot(link: BodyLink, part: Part, before: Row, after: Row, made: nat) {
    match part
    case Untouched => after.automation == before.automation && after.trigger == before.trigger
    case Cleared => (match link
      case Leave => after.automation == before.automation && after.trigger == before.trigger
      case Attach(Automation(a)) => after.trigger == before.trigger && after.automation == if before.automation == Some(a) then Some(a) else None
      case Attach(Trigger(t)) => after.automation == before.automation && after.trigger == if before.trigger == Some(t) then Some(t) else None
      case _ => after.automation == None && after.trigger == None)
    case Carried => (match link
      case Leave => after.automation == before.automation && after.trigger == before.trigger
      case Attach(Automation(a)) => after.trigger == before.trigger && after.automation == Some(a)
      case Attach(Trigger(t)) => after.automation == before.automation && after.trigger == Some(t)
      case Detach => after.automation == None && after.trigger == None
      case Make => after.automation == Some(Made(made)) && after.trigger == None)
  }

  /** A dropped save of a post moves it, with the campaign as far as the server got, while the composer stays as it was. */
  lemma DroppedSaveLeaves(w: World, more: nat, part: Part)
    requires w.client.phase.Saving? && (w.client.phase.target.Some? ==> w.client.phase.target.value < |w.rows|)
    requires w.client.phase.target.Some? ==> w.rows[w.client.phase.target.value].version == w.client.phase.version
    ensures var target, after := w.client.phase.target, AnswerStep(w, Dropped(more, part));
      var id := if target.Some? then target.value else |w.rows|;
      && id < |after.rows| == (if target.Some? then |w.rows| else |w.rows| + 1)
      && after.rows[id].version == (if target.Some? then w.rows[id].version + 1 + more else 1)
      && LinkGot(RequestOf(w.client.phase).link, part, PostBefore(w), after.rows[id], w.made)
      && after.made == w.made + (if w.client.phase.link.NewCampaign? && part == Carried then 1 else 0)
      && after.client == w.client.(phase := Idle)
  {}

  /** Whatever is edited is sent by the next autosave that can send, once. */
  lemma EditIsAutosavedOnce(w: World, e: Event, ready: bool, reply: Reply, again: Reply)
    requires (e.EditLink? || e.Edit?) && Enabled(w, e) && !w.client.phase.Saving?
    ensures var edited := Step(w, e); var saved := Step(edited, Autosave(ready, reply)); var later := Step(saved, Autosave(true, again));
      && edited.client.link == (if e.EditLink? then e.link else w.client.link) && edited.client.dirty
      && edited.opens == w.opens + (if e.EditLink? && e.link.NewCampaign? && !w.client.link.NewCampaign? then 1 else 0)
      && (if w.client.serverId.Some? && w.client.version.Some? && ready
          then |saved.log| == |w.log| + 1 && Last(saved).auto && Last(saved).request.Patch? && Last(saved).request.id == w.client.serverId.value
          else saved.log == w.log)
      && later == saved && !saved.client.dirty
  {
    hide Relinked, Bumped;
  }

  /** Every other post loses a campaign that is attached here, and is otherwise left alone. */
  lemma OtherPostsLoseTheCampaign(w: World, auto: bool, request: Request, reply: Reply, i: nat)
    requires i < |w.rows| && (request.Create? || request.id != i)
    ensures var s := Serve(w, auto, request, reply);
      && i < |s.rows| && s.rows[i].version == w.rows[i].version
      && (if !request.Action? && request.link.Attach? && PartOf(Last(s).reply).Carried?
          then match request.link.campaign
            case Automation(a) =>
              s.rows[i].trigger == w.rows[i].trigger && s.rows[i].automation == if w.rows[i].automation == Some(a) then None else w.rows[i].automation
            case Trigger(t) =>
              s.rows[i].automation == w.rows[i].automation && s.rows[i].trigger == if w.rows[i].trigger == Some(t) then None else w.rows[i].trigger
          else s.rows[i] == w.rows[i])
  {}

  // ---------------------------------------------------------------- falling behind

  /** The server's version has moved past the one the next patch would carry. */
  predicate Behind(w: World) {
    var c := w.client;
    c.serverId.Some? && c.serverId.value < |w.rows| && VersionSent(c) < w.rows[c.serverId.value].version
  }

  /** The post moves and the composer is not told: the version check will refuse its next patch. */
  predicate SilentBump(w: World, e: Event) {
    var c := w.client;
    match e
    case Answer(reply) => c.phase.Saving? && c.phase.target.Some? && reply.Dropped?
    case Autosave(ready, reply) => c.dirty && c.serverId.Some? && c.version.Some? && ready && reply.Dropped?
    case Acted(reply, _) => !reply.Refused?
    case Elsewhere(id, edits, _, _) => edits && c.serverId == Some(id)
    case _ => false
  }

  ghost predicate HadSilentBump(w: World, events: seq<Event>)
    requires IsRun(w, events)
    decreases |events|
  {
    events != [] && (SilentBump(w, events[0]) || HadSilentBump(Step(w, events[0]), events[1..]))
  }

  /** The client's version is never ahead of the server's. */
  ghost predicate NotAhead(w: World) {
    var c := w.client;
    && SaveIsCurrent(c) && SavedIsKnown(c)
    && (c.serverId.Some? ==> c.serverId.value < |w.rows| && VersionSent(c) <= w.rows[c.serverId.value].version)
  }

  predicate SavedPatch(x: Exchange) { x.request.Patch? && !x.reply.Refused? }

  lemma ServeSaves(w: World, auto: bool, request: Request, reply: Reply)
    ensures var s := Serve(w, auto, request, reply);
      Count(s.log, SavedPatch) == Count(w.log, SavedPatch) + (if request.Patch? && !Effective(w, request, reply).Refused? then 1 else 0)
  {
    Appended(w.log, Last(Serve(w, auto, request, reply)), None);
  }

  lemma AnswerFallsBehind(w: World, reply: Reply)
    requires NotAhead(w) && w.client.phase.Saving?
    ensures NotAhead(AnswerStep(w, reply))
    ensures Behind(AnswerStep(w, reply)) <==> Behind(w) || SilentBump(w, Answer(reply))
    ensures Behind(w) ==> Count(AnswerStep(w, reply).log, SavedPatch) == Count(w.log, SavedPatch)
  {
    hide Count;
    ServeSaves(w, false, RequestOf(w.client.phase), reply);
  }

  lemma ActedFallsBehind(w: World, reply: Reply, failures: bool)
    requires NotAhead(w) && w.client.phase.Acting?
    ensures NotAhead(ActedStep(w, reply, failures))
    ensures Behind(ActedStep(w, reply, failures)) <==> Behind(w) || SilentBump(w, Acted(reply, failures))
    ensures Count(ActedStep(w, reply, failures).log, SavedPatch) == Count(w.log, SavedPatch)
  {
    hide Count;
    ServeSaves(w, false, Action(w.client.phase.id), reply);
  }

  lemma AutosaveFallsBehind(w: World, ready: bool, reply: Reply)
    requires NotAhead(w) && Enabled(w, Autosave(ready, reply))
    ensures NotAhead(AutosaveStep(w, ready, reply))
    ensures Behind(AutosaveStep(w, ready, reply)) <==> Behind(w) || SilentBump(w, Autosave(ready, reply))
    ensures Behind(w) ==> Count(AutosaveStep(w, ready, reply).log, SavedPatch) == Count(w.log, SavedPatch)
  {
    hide Count;
    var c := w.client;
    if c.dirty && c.serverId.Some? && c.version.Some? && ready {
      ServeSaves(w.(client := c.(dirty := false)), true, Patch(c.serverId.value, c.version.value, BodyOf(c.link, ForAutosave)), reply);
    }
  }

  lemma StepFallsBehind(w: World, e: Event)
    requires NotAhead(w) && Enabled(w, e)
    ensures NotAhead(Step(w, e))
    ensures Behind(Step(w, e)) <==> Behind(w) || SilentBump(w, e)
    ensures Behind(w) ==> Count(Step(w, e).log, SavedPatch) == Count(w.log, SavedPatch)
  {
    hide Count, AnswerStep, ActedStep, AutosaveStep;
    match e
    case Answer(reply) => AnswerFallsBehind(w, reply);
    case Acted(reply, failures) => ActedFallsBehind(w, reply, failures);
    case Autosave(ready, reply) => AutosaveFallsBehind(w, ready, reply);
    case _ =>
  }

  /**
   * A composer is behind after a run exactly when it was before, or the run held a step that
   * moved its post without telling it; and once behind, nothing it sends is saved again.
   */
  lemma {:induction false} BehindIff(w: World, events: seq<Event>)
    requires NotAhead(w) && IsRun(w, events)
    ensures Behind(After(w, events)) <==> Behind(w) || HadSilentBump(w, events)
    ensures Behind(w) ==> Count(After(w, events).log, SavedPatch) == Count(w.log, SavedPatch)
    decreases |events|
  {
    hide NotAhead, Behind, SilentBump, Step, Enabled, Count;
    if events != [] {
      StepFallsBehind(w, events[0]);
      BehindIff(Step(w, events[0]), events[1..]);
    }
  }

  /** Versions start at 1, so a composer that has just opened is not ahead. */
  lemma OpenedIsNotAhead(w: World)
    requires Opened(w) && forall i :: 0 <= i < |w.rows| ==> w.rows[i].version >= 1
    ensures NotAhead(w)
    ensures Behind(w) <==> w.client.serverId.Some? && w.client.version.None? && w.rows[0].version > 1
  {}

  /**
   * Over every run from an opened composer: it is behind exactly when its post could not be
   * read and is past its first version, or some step of the run moved the post silently.
   */
  lemma OpenedIsBehindIff(w: World, events: seq<Event>)
    requires Opened(w) && (forall i :: 0 <= i < |w.rows| ==> w.rows[i].version >= 1) && IsRun(w, events)
    ensures Behind(After(w, events)) <==>
      (w.client.serverId.Some? && w.client.version.None? && w.rows[0].version > 1) || HadSilentBump(w, events)
  {
    OpenedIsNotAhead(w);
    BehindIff(w, events);
  }

  /**
   * An Instagram post is saved, one of its other networks fails, and the action (schedule,
   * queue, review) is accepted: the composer stays open one version behind, and whatever it
   * saves next is refused and changes nothing.
   */
  lemma CrossProblemLeavesBehind(w: World, more: nat, next: bool, reply: Reply)
    requires NotAhead(w) && w.client.phase.Syncing? && w.client.phase.act && w.client.link != NewCampaign(false)
    ensures var v := ActedStep(TargetsStep(w, true, true), Accepted(more), false); var x := AnswerStep(ClickStep(v, next), reply);
      && v.client.phase.Idle? && Behind(v) && !v.client.dirty
      && Last(x).reply.Refused? && x.rows == v.rows && x.made == v.made && x.client == v.client
  {
    var t := TargetsStep(w, true, true);
    ActedFallsBehind(t, Accepted(more), false);
    var v := ActedStep(t, Accepted(more), false);
    RefusedWhenBehind(v, next, reply);
  }

  lemma RefusedWhenBehind(v: World, next: bool, reply: Reply)
    requires v.client.phase.Idle? && Behind(v) && v.client.link != NewCampaign(false)
    ensures var x := AnswerStep(ClickStep(v, next), reply);
      Last(x).reply.Refused? && x.rows == v.rows && x.made == v.made && x.client == v.client
  {}

  /** A creation whose reply is lost leaves the client as it was: the next save makes a second post. */
  lemma LostReplyMakesASecondPost(w: World, part: Part)
    requires w.client.phase.Idle? && w.client.serverId.None? && w.client.link != NewCampaign(false)
    ensures var once := AnswerStep(ClickStep(w, false), Dropped(0, part));
      var twice := AnswerStep(ClickStep(once, false), Accepted(0));
      && once.client == w.client && |once.rows| == |w.rows| + 1
      && |twice.rows| == |w.rows| + 2 && twice.client.serverId == Some(|w.rows| + 1)
  {
    hide Relinked;
  }

  // ---------------------------------------------------------------- the code itself

  /** One uninterrupted `save`: its requests are answered in turn. */
  function SaveAll(w: World, act: bool, answer: Reply, problem: bool, instagram: bool, acted: Reply, failures: bool): World
    requires w.client.phase.Idle?
  {
    var clicked := Step(w, Click(act));
    if !clicked.client.phase.Saving? then clicked
    else
      var answered := Step(clicked, Answer(answer));
      if !answered.client.phase.Syncing? then answered
      else
        var synced := Step(answered, Targets(problem, instagram));
        if !synced.client.phase.Acting? then synced else Step(synced, Acted(acted, failures))
  }

  lemma SaveInSteps(w: World, act: bool, answer: Reply, problem: bool, instagram: bool, acted: Reply, failures: bool)
    requires w.client.phase.Idle?
    ensures var s := SaveAll(w, act, answer, problem, instagram, acted, failures); var clicked := ClickStep(w, act);
      if !clicked.client.phase.Saving? then s == clicked
      else
        var answered := AnswerStep(clicked, answer);
        if !answered.client.phase.Syncing? then s == answered
        else
          var synced := TargetsStep(answered, problem, instagram);
          s == if synced.client.phase.Acting? then ActedStep(synced, acted, failures) else synced
  {
    hide ClickStep, AnswerStep, TargetsStep, ActedStep;
  }

  /** The patch of a stored post has the version the server has; a new post needs none. */
  predicate UpToDate(w: World) {
    w.client.serverId.Some? ==> w.client.serverId.value < |w.rows| && VersionSent(w.client) == w.rows[w.client.serverId.value].version
  }

  /**
   * How a save ends: one request for the post, one for the action, none for a form that is
   * not filled in; the draft is clean and the composer closed exactly when nothing was left
   * to report.
   */
  lemma SaveEnds(w: World, act: bool, answer: Reply, problem: bool, instagram: bool, acted: Reply, failures: bool)
    requires w.client.phase.Idle?
    ensures var s := SaveAll(w, act, answer, problem, instagram, acted, failures);
      var sent := w.client.link != NewCampaign(false);
      var saved := sent && answer.Accepted? && UpToDate(w);
      var through := saved && (problem ==> instagram);
      var done := through && (act ==> acted.Accepted?);
      && |s.log| == |w.log| + (if sent then 1 else 0) + (if through && act then 1 else 0)
      && (s.client.phase == if done && !problem && !(act && failures) then Closed else Idle)
      && s.client.dirty == (w.client.dirty && !done)
      && s.client.serverId.Some? == (w.client.serverId.Some? || saved)
  {
    hide AnswerStep, ActedStep, Serve, SaveAll;
    SaveInSteps(w, act, answer, problem, instagram, acted, failures);
    var clicked := ClickStep(w, act);
    if clicked.client.phase.Saving? {
      AnswerEnds(clicked, answer);
      var synced := AnswerStep(clicked, answer);
      if synced.client.phase.Syncing? && TargetsStep(synced, problem, instagram).client.phase.Acting? {
        ActedEnds(TargetsStep(synced, problem, instagram), acted, failures);
      }
    }
  }

  lemma AnswerEnds(w: World, reply: Reply)
    requires w.client.phase.Saving? && w.client.phase.target == w.client.serverId && w.client.phase.version == VersionSent(w.client)
    ensures var s := AnswerStep(w, reply); var saved := reply.Accepted? && UpToDate(w);
      && |s.log| == |w.log| + 1 && s.client.dirty == w.client.dirty
      && (if saved then s.client.phase.Syncing? && s.client.phase.act == w.client.phase.act else s.client.phase.Idle?)
      && s.client.serverId.Some? == (w.client.serverId.Some? || saved)
  {
    hide Relinked;
  }

  lemma ActedEnds(w: World, reply: Reply, failures: bool)
    requires w.client.phase.Acting?
    ensures var s := ActedStep(w, reply, failures);
      && |s.log| == |w.log| + 1 && s.client.serverId == w.client.serverId
      && s.client.dirty == (w.client.dirty && !reply.Accepted?)
      && s.client.phase == if reply.Accepted? && !failures && !w.client.phase.problem then Closed else Idle
  {}

  lemma SendIgnoresTheClient(w: World, phase: Phase, auto: bool, request: Request, reply: Reply)
    ensures var s, t := Serve(At(w, phase), auto, request, reply), Serve(w, auto, request, reply);
      && s.rows == t.rows && s.made == t.made && s.log == t.log && Last(s) == Last(t)
      && s.client == At(w, phase).client && t.client == w.client && s.opens == t.opens == w.opens
    ensures request.Action? ==> Last(Serve(w, auto, request, reply)).reply == reply
  {}

  class ComposerForm {
    var serverId: Option<nat>
    var version: Option<nat>
    var link: Link
    var dirty: bool
    var open: bool
    // the server behind it
    var rows: seq<Row>
    var made: nat
    ghost var opens: nat
    ghost var log: seq<Exchange>

    constructor (w: World)
      requires w.client.phase.Idle?
      ensures State(Idle) == w && open
    {
      serverId, version, link, dirty, open := w.client.serverId, w.client.version, w.client.link, w.client.dirty, true;
      rows, made, opens, log := w.rows, w.made, w.opens, w.log;
    }

    ghost function State(phase: Phase): World
      reads this
    {
      World(Client(serverId, version, link, dirty, phase), rows, made, opens, log)
    }

    /** The server's `attachCampaignToPost`, as far as it gets. */
    method AttachCampaign(id: nat, link: BodyLink, part: Part)
      requires id < |rows|
      modifies `rows, `made
      ensures rows == Relinked(old(rows), id, link, part, old(made))
      ensures made == if link == Make && part.Carried? then old(made) + 1 else old(made)
      ensures old(rows)[id].version == rows[id].version
    {
      if link.Leave? || part.Untouched? {
        return;
      }
      if !link.Attach? {
        rows := rows[id := rows[id].(automation := None, trigger := None)];
        if link.Make? && part.Carried? {
          rows := rows[id := rows[id].(automation := Some(Made(made)))];
          made := made + 1;
        }
        return;
      }
      var c := link.campaign;
      rows := rows[id := MadeRoom(rows[id], c)];
      if part.Carried? {
        var held := rows;
        rows := seq(|held|, i requires 0 <= i < |held| => Without(held[i], c));
        rows := rows[id := With(rows[id], c)];
      }
    }

    method Send(auto: bool, request: Request, wished: Reply) returns (x: Exchange)
      modifies `rows, `made, `log
      ensures var s := Serve(old(State(Idle)), auto, request, wished);
        rows == s.rows && made == s.made && log == s.log && x == Last(s)
    {
      var reply := wished;
      if request.Patch? && (request.id >= |rows| || rows[request.id].version != request.version) {
        reply := Refused;
      }
      var returned := None;
      if !reply.Refused? {
        var id := if request.Create? then |rows| else request.id;
        if request.Create? {
          rows := rows + [Row(1, None, None)];
        } else if id < |rows| {
          rows := rows[id := rows[id].(version := rows[id].version + 1 + reply.more)];
        }
        if !request.Action? {
          AttachCampaign(id, request.link, PartOf(reply));
          if reply.Accepted? {
            returned := Some(rows[id].version);
          }
        }
      }
      x := Exchange(auto, request, reply, returned);
      log := log + [x];
    }

    /** The post itself, up to the version and the campaign link. */
    method SavePost(ghost act: bool, answer: Reply) returns (ok: bool, id: nat)
      requires open && link != NewCampaign(false)
      modifies `serverId, `version, `link, `rows, `made, `log
      ensures State(if ok then Syncing(id, act) else Idle) == AnswerStep(ClickStep(old(State(Idle)), act), answer)
    {
      hide Serve, Last;
      ghost var clicked := ClickStep(State(Idle), act);
      ghost var request := RequestOf(clicked.client.phase);
      SendIgnoresTheClient(State(Idle), clicked.client.phase, false, request, answer);
      ghost var served := Serve(clicked, false, request, answer);
      var newCampaign, firstNew := link.NewCampaign?, made;
      var body := BodyOf(link, ForSave);
      ok := false;
      id := |rows|;
      var x;
      if serverId.Some? {
        id := serverId.value;
        x := Send(false, Patch(id, if version.Some? then version.value else 1, body), answer);
        if !x.reply.Accepted? {
          return;
        }
      } else {
        x := Send(false, Create(body), answer);
        if !x.reply.Accepted? {
          return;
        }
        serverId := Some(id);
      }
      ok := true;
      version := x.returned;
      if newCampaign {
        link := Linked(Automation(Made(firstNew)));
      }
    }

    /** The action on the saved post, and the end of `save`. */
    method Act(id: nat, problem: bool, acted: Reply, failures: bool)
      requires open
      modifies `dirty, `open, `rows, `made, `log
      ensures State(if open then Idle else Closed) == ActedStep(old(State(Acting(id, problem))), acted, failures)
    {
      hide Serve, Last;
      SendIgnoresTheClient(State(Idle), Acting(id, problem), false, Action(id), acted);
      var y := Send(false, Action(id), acted);
      if !y.reply.Accepted? {
        return;
      }
      dirty := false;
      if !failures && !problem {
        open := false;
      }
    }

    method Save(act: bool, answer: Reply, problem: bool, instagram: bool, acted: Reply, failures: bool)
      requires open
      modifies this
      ensures State(if open then Idle else Closed) == SaveAll(old(State(Idle)), act, answer, problem, instagram, acted, failures)
    {
      hide AnswerStep, ActedStep, SaveAll;
      SaveInSteps(State(Idle), act, answer, problem, instagram, acted, failures);
      if link == NewCampaign(false) {
        return;
      }
      var ok, id := SavePost(act, answer);
      if !ok || (problem && !instagram) {
        return;
      }
      if act {
        Act(id, problem, acted, failures);
        return;
      }
      dirty := false;
      if problem {
        return;
      }
      open := false;
    }

    method Autosave(ready: bool, reply: Reply)
      requires open
      modifies this
      ensures State(Idle) == AutosaveStep(old(State(Idle)), ready, reply) && open
    {
      if !dirty {
        return;
      }
      dirty := false;
      if serverId.Some? && version.Some? && ready {
        var x := Send(true, Patch(serverId.value, version.value, BodyOf(link, ForAutosave)), reply);
        if x.reply.Accepted? {
          version := x.returned;
        }
      }
    }
  }
}
