/** The stream engine `XMPPHP_XMLStream`: the parser callbacks that build a
    node table keyed by depth, the three handler registries a finished stanza
    is dispatched through, the event queues `processUntil` waits on, and the
    state part of `reset`. Sockets are replaced by an outbox of sent strings,
    the expat tokenizer by a sequence of parser events, and handler calls by a
    trace of the calls the engine makes. */
module XmlStream {
  import opened Util
  import opened Dict
  import opened XmlObj
  import opened XPath

  /** A handler is named by its method and by the object it is called on;
      the object "" stands for null, which the engine replaces by itself. */
  datatype Handler = Handler(fn: string, obj: string)

  /** One call made by the engine: a stanza handler receiving the stanza, or
      an event handler receiving the event payload. */
  datatype Call = StanzaCall(handler: Handler, stanza: Element) | EventCall(handler: Handler, payload: Value)

  /** Entries of `nshandlers`, `xpathhandlers` and `eventhandlers`. */
  datatype NsHandler = NsHandler(name: string, ns: string, handler: Handler, depth: int)
  datatype PathHandler = PathHandler(path: seq<Seg>, handler: Handler)
  datatype EventHandler = EventHandler(name: string, handler: Handler)

  /** What the XML parser delivers to the callbacks: element starts with
      their attributes in document order, element ends, character data. */
  datatype XmlEvent = Start(name: string, attrs: Dict<string, string>) | End(name: string) | Text(data: string)

  /** One step of a round of `__process`: input that reached the parser,
      events raised by the handlers that this input triggered, or a read that
      returned nothing. The wait loop tests its stop condition after each
      step. */
  datatype PollStep = Received(input: seq<XmlEvent>) | Raised(events: seq<(string, Value)>) | Lost

  /** The (event name, payload) pairs collected for one wait registration. */
  type Queue = seq<(string, Value)>

  // ---------------------------------------------------------------------------
  // startXML

  /** The namespace of a new element before prefixes: its XMLNS attribute,
      else the namespace at the depth above, else (when that is falsy) the
      default namespace. */
  function DepthNs(attrs: Dict<string, string>, parentNs: string, defaultNs: string): string {
    match Get(attrs, "XMLNS")
    case Some(v) => v
    case None => if Falsy(parentNs) then defaultNs else parentNs
  }

  /** Every attribute `p:x` binds prefix x to its value, in document order. */
  function Declare(nsMap: map<string, string>, attrs: Dict<string, string>): map<string, string>
    decreases |attrs|
  {
    if attrs == [] then nsMap
    else
      var m := Declare(nsMap, attrs[..|attrs| - 1]);
      var (k, v) := attrs[|attrs| - 1];
      if ':' in k then m[SecondPiece(k, ':') := v] else m
  }

  /** A name `p:n` is the local name n in the namespace bound to p. */
  function LocalName(name: string): string {
    if ':' in name then SecondPiece(name, ':') else name
  }

  function ResolvedNs(name: string, nsMap: map<string, string>, ns: string): string {
    if ':' in name then
      var p := FirstPiece(name, ':');
      if p in nsMap then nsMap[p] else ""
    else ns
  }

  /** `$this->currentNs[$d]`, a missing depth read as null (""). */
  function NsAt(currentNs: map<int, string>, d: int): string {
    if d in currentNs then currentNs[d] else ""
  }

  /** The node `startXML` creates: local name, resolved namespace, the
      attributes as given, no children and no text yet. */
  function NewElement(name: string, attrs: Dict<string, string>, nsMap: map<string, string>, ns: string): Element {
    Element(LocalName(name), ResolvedNs(name, nsMap, ns), attrs, [], "")
  }

  /** At open, the new node is appended to the children of the node one
      level up, when there is one. */
  function AttachChild(table: Dict<int, Element>, d: int, e: Element): Dict<int, Element> {
    if d > 1 && HasKey(table, d - 1) then
      var p := Get(table, d - 1).value;
      Put(table, d - 1, p.(subs := p.subs + [e]))
    else table
  }

  /** The attribute loop of `startXML`. */
  method DeclareAll(nsMap: map<string, string>, attrs: Dict<string, string>) returns (m: map<string, string>)
    ensures m == Declare(nsMap, attrs)
  {
    m := nsMap;
    var i := 0;
    while i < |attrs|
      invariant 0 <= i <= |attrs|
      invariant m == Declare(nsMap, attrs[..i])
    {
      var (k, v) := attrs[i];
      assert attrs[..i + 1][..i] == attrs[..i];
      if ':' in k {
        m := m[SecondPiece(k, ':') := v];
      }
      i := i + 1;
    }
    assert attrs[..i] == attrs;
  }

  // ---------------------------------------------------------------------------
  // endXML

  /** The engine holds element values, not shared objects: when the node at
      depth d closes, the copy appended to its parent at open is replaced by
      its final value, which is what the shared object would show. */
  function RefreshChild(table: Dict<int, Element>, d: int): Dict<int, Element> {
    if d > 1 && HasKey(table, d) && HasKey(table, d - 1) && Get(table, d - 1).value.subs != [] then
      var p := Get(table, d - 1).value;
      Put(table, d - 1, p.(subs := p.subs[..|p.subs| - 1] + [Get(table, d).value]))
    else table
  }

  /** After a stanza: only the first node is kept, renumbered 0, with its
      children cleared. The `unset` of entry 2 that follows finds nothing left
      to remove. */
  function Truncate(table: Dict<int, Element>): (r: Dict<int, Element>)
    ensures |r| <= 1 && forall i :: 0 <= i < |r| ==> r[i].0 == 0 && r[i].1.subs == []
  {
    if table == [] then [] else [(0, table[0].1.(subs := []))]
  }

  /** Handlers that fire, in registration order; defined from the end so
      that a loop over the registry extends it by one entry per step. */
  function PathCalls(hs: seq<PathHandler>, stanza: Element): seq<Call> {
    if hs == [] then []
    else
      var h := hs[|hs| - 1];
      PathCalls(hs[..|hs| - 1], stanza) + (if PathMatches(h.path, stanza) then [StanzaCall(h.handler, stanza)] else [])
  }

  /** A name/namespace handler looks at the stanza, or (when registered at a
      depth other than 1) at its first child of that name if there is one. */
  predicate NsMatches(h: NsHandler, stanza: Element, defaultNs: string) {
    var search := if h.depth != 1 && HasSub(stanza, h.name, "") then Sub(stanza, h.name, "").value else stanza;
    search.name == h.name && (search.ns == h.ns || (Falsy(h.ns) && search.ns == defaultNs))
  }

  function NsCalls(hs: seq<NsHandler>, stanza: Element, defaultNs: string): seq<Call> {
    if hs == [] then []
    else
      var h := hs[|hs| - 1];
      NsCalls(hs[..|hs| - 1], stanza, defaultNs) + (if NsMatches(h, stanza, defaultNs) then [StanzaCall(h.handler, stanza)] else [])
  }

  /** An id handler registered under k fits a stanza whose id attribute is k. */
  predicate IdMatch(k: nat, stanza: Element) {
    HasAttr(stanza, "id") && Attr(stanza, "id") == NatToString(k)
  }

  /** The position of the first fitting id handler, or -1. */
  function FirstIdIndex(ids: Dict<nat, Handler>, stanza: Element): (i: int)
    ensures -1 <= i < |ids|
    ensures i >= 0 ==> IdMatch(ids[i].0, stanza) && forall j :: 0 <= j < i ==> !IdMatch(ids[j].0, stanza)
    ensures i == -1 ==> forall j :: 0 <= j < |ids| ==> !IdMatch(ids[j].0, stanza)
  {
    if ids == [] then -1
    else if IdMatch(ids[0].0, stanza) then 0
    else
      var i := FirstIdIndex(ids[1..], stanza);
      if i == -1 then -1 else i + 1
  }

  // ---------------------------------------------------------------------------
  // event and the wait registrations

  function EventCalls(hs: seq<EventHandler>, name: string, p: Value): seq<Call> {
    if hs == [] then []
    else
      var h := hs[|hs| - 1];
      EventCalls(hs[..|hs| - 1], name, p) + (if h.name == name then [EventCall(h.handler, p)] else [])
  }

  /** The registrations among ks that wait for the event name. */
  function Waiting(until: map<nat, set<string>>, ks: set<nat>, name: string): set<nat> {
    set k | k in ks && k in until && name in until[k]
  }

  /** `untilPayload[k][] = (name, p)` for every k in hit. */
  function Enqueue(payloads: map<nat, Queue>, hit: set<nat>, name: string, p: Value): map<nat, Queue> {
    map k | k in payloads.Keys + hit :: if k in hit then (if k in payloads then payloads[k] else []) + [(name, p)] else payloads[k]
  }

  /** `untilCount[k] += 1` for every k in hit (a missing count starts at 0). */
  function Bump(counts: map<nat, nat>, hit: set<nat>): map<nat, nat> {
    map k | k in counts.Keys + hit :: if k in hit then (if k in counts then counts[k] else 0) + 1 else counts[k]
  }

  /** The wait registrations agree at every key. */
  ghost predicate WaitValid(until: map<nat, set<string>>, counts: map<nat, nat>, payloads: map<nat, Queue>, next: nat) {
    forall k: nat {:trigger WaitOk(until, counts, payloads, next, k)} :: WaitOk(until, counts, payloads, next, k)
  }

  /** At key k: a registration has a count and a count a registration; the
      key is below the next free index; a registration has a queue exactly
      when its count is positive, the queue is as long as the count, and it
      holds only events the registration waits for. */
  ghost predicate WaitOk(until: map<nat, set<string>>, counts: map<nat, nat>, payloads: map<nat, Queue>, next: nat, k: nat) {
    && (k in until <==> k in counts)
    && (k in payloads ==> k in until)
    && (k in until ==> k < next)
    && (k in counts ==> (k in payloads <==> counts[k] >= 1))
    && (k in payloads ==> |payloads[k]| == counts[k] && forall j :: 0 <= j < |payloads[k]| ==> payloads[k][j].0 in until[k])
  }

  /** The loop over the registrations in `event`: each one waiting for the
      name gets the pair appended to its queue and its count raised. */
  method EnqueueAll(until: map<nat, set<string>>, payloads: map<nat, Queue>, counts: map<nat, nat>,
                    name: string, p: Value)
    returns (q: map<nat, Queue>, c: map<nat, nat>)
    ensures var hit := Waiting(until, until.Keys, name);
      q == Enqueue(payloads, hit, name, p) && c == Bump(counts, hit)
  {
    var keys, done: set<nat> := until.Keys, {};
    q, c := payloads, counts;
    while keys != {}
      invariant keys + done == until.Keys && keys !! done
      invariant q == Enqueue(payloads, Waiting(until, done, name), name, p)
      invariant c == Bump(counts, Waiting(until, done, name))
      decreases keys
    {
      var k :| k in keys;
      WaitingStep(until, done, k, name);
      if name in until[k] {
        EnqueueOne(payloads, Waiting(until, done, name), k, name, p);
        BumpOne(counts, Waiting(until, done, name), k);
        q := q[k := (if k in q then q[k] else []) + [(name, p)]];
        c := c[k := (if k in c then c[k] else 0) + 1];
      }
      keys := keys - {k};
      done := done + {k};
    }
  }

  // ---------------------------------------------------------------------------
  // The engine as a value: what the callbacks and events do, step by step

  /** The part of the engine that the parser callbacks and events change. */
  datatype Snapshot = Snapshot(
    depth: int, currentNs: map<int, string>, nsMap: map<string, string>, table: Dict<int, Element>,
    reset: bool, ids: Dict<nat, Handler>, trace: seq<Call>, outbox: seq<string>,
    payloads: map<nat, Queue>, counts: map<nat, nat>, disconnected: bool, sentDisconnect: bool)

  /** The part they only read: the handler registries, the wait
      registrations and the connection settings. */
  datatype Setup = Setup(
    xpath: seq<PathHandler>, ns: seq<NsHandler>, events: seq<EventHandler>, until: map<nat, set<string>>,
    defaultNs: string, reconnect: bool, isServer: bool, streamStart: string, streamEnd: string)

  /** `startXML`, first half: one level deeper (from 0 after a reset), with
      the namespace and prefixes of the new node. */
  function Descended(s: Snapshot, u: Setup, attrs: Dict<string, string>): Snapshot {
    var d := (if s.reset then 0 else s.depth) + 1;
    s.(reset := false, depth := d, currentNs := s.currentNs[d := DepthNs(attrs, NsAt(s.currentNs, d - 1), u.defaultNs)],
       nsMap := Declare(s.nsMap, attrs))
  }

  /** The node recorded under its parent and at its own depth. */
  function Added(s: Snapshot, e: Element): Snapshot {
    s.(table := Put(AttachChild(s.table, s.depth, e), s.depth, e))
  }

  /** `startXML`. */
  function AfterStart(s: Snapshot, u: Setup, name: string, attrs: Dict<string, string>): Snapshot {
    var t := Descended(s, u, attrs);
    Added(t, NewElement(name, attrs, t.nsMap, t.currentNs[t.depth]))
  }

  /** `charXML`: the text goes to the node at the current depth, if any. */
  function AfterChar(s: Snapshot, data: string): Snapshot {
    match Get(s.table, s.depth)
    case Some(e) => s.(table := Put(s.table, s.depth, e.(data := e.data + data)))
    case None => s
  }

  /** `event(name, p)`: the handlers of the name are called, and every wait
      registration for the name records the pair and counts it. */
  function AfterEvent(s: Snapshot, u: Setup, name: string, p: Value): Snapshot {
    var hit := Waiting(u.until, u.until.Keys, name);
    s.(trace := s.trace + EventCalls(u.events, name, p),
       payloads := Enqueue(s.payloads, hit, name, p), counts := Bump(s.counts, hit))
  }

  /** Events raised one after the other. */
  function AfterEvents(s: Snapshot, u: Setup, raised: seq<(string, Value)>): Snapshot
    decreases |raised|
  {
    if raised == [] then s
    else
      var (name, p) := raised[|raised| - 1];
      AfterEvent(AfterEvents(s, u, raised[..|raised| - 1]), u, name, p)
  }

  /** `reset`: depth 0, no nodes, a reset pending, and the opening tag sent
      again by a client. */
  function AfterReset(s: Snapshot, u: Setup): Snapshot {
    s.(depth := 0, table := [], reset := true, outbox := s.outbox + (if u.isServer then [] else [u.streamStart]))
  }

  /** `doReconnect`: a client reopens the stream, a server does nothing. */
  function AfterReconnect(s: Snapshot, u: Setup): Snapshot {
    if u.isServer then s
    else
      var r := AfterReset(s.(disconnected := false, sentDisconnect := false), u);
      AfterEvent(r, u, "reconnect", Null)
  }

  /** The closing tag unless already sent, the connection marked closed, and
      a reconnection when that is on. */
  function AfterClose(s: Snapshot, u: Setup): Snapshot {
    var c := s.(outbox := s.outbox + (if s.sentDisconnect then [] else [u.streamEnd]),
                disconnected := true, sentDisconnect := true);
    if u.reconnect then AfterReconnect(c, u) else c
  }

  /** Depth 0 without a pending reset: the connection is closed if still
      open, and `end_stream` is raised in either case. */
  function AfterStreamEnd(s: Snapshot, u: Setup): Snapshot {
    AfterEvent(if s.disconnected then s else AfterClose(s, u), u, "end_stream", Null)
  }

  /** Back at depth 1: the stanza under entry 2 goes through the path, the
      name/namespace and the id handlers, and the table is cut back. Entry 2
      always exists here in a valid engine. */
  function AfterStanza(s: Snapshot, u: Setup): Snapshot {
    if HasKey(s.table, 2) then
      var stanza := Get(s.table, 2).value;
      var i := FirstIdIndex(s.ids, stanza);
      s.(trace := s.trace + PathCalls(u.xpath, stanza) + NsCalls(u.ns, stanza, u.defaultNs)
                  + (if i >= 0 then [StanzaCall(s.ids[i].1, stanza)] else []),
         ids := if i >= 0 then Remove(s.ids, s.ids[i].0) else s.ids,
         table := Truncate(s.table))
    else s.(table := Truncate(s.table))
  }

  /** The first half of `endXML`: one level up (from 0 after a reset), and
      the closed node's value refreshed under its parent. */
  function Closed(s: Snapshot): Snapshot {
    var d := if s.reset then 0 else s.depth;
    s.(reset := false, depth := d - 1, table := RefreshChild(s.table, d))
  }

  /** `endXML`: the node closed, then the stanza or the stream finished. */
  function AfterEnd(s: Snapshot, u: Setup): Snapshot {
    var c := Closed(s);
    if c.depth == 1 then AfterStanza(c, u)
    else if c.depth == 0 then AfterStreamEnd(c, u)
    else c
  }

  /** The callback the parser makes for one event. */
  function AfterXml(s: Snapshot, u: Setup, x: XmlEvent): Snapshot {
    match x
    case Start(n, a) => AfterStart(s, u, n, a)
    case End(_) => AfterEnd(s, u)
    case Text(t) => AfterChar(s, t)
  }

  /** `xml_parse` on received input: the callbacks in document order. */
  function AfterInput(s: Snapshot, u: Setup, input: seq<XmlEvent>): Snapshot
    decreases |input|
  {
    if input == [] then s else AfterXml(AfterInput(s, u, input[..|input| - 1]), u, input[|input| - 1])
  }

  /** One step of a round of `__process`: input parsed, events raised by the
      handlers it ran, or a failed read, which reconnects when that is on. */
  function AfterPoll(s: Snapshot, u: Setup, step: PollStep): Snapshot {
    match step
    case Received(input) => AfterInput(s, u, input)
    case Raised(raised) => AfterEvents(s, u, raised)
    case Lost => if u.reconnect then AfterReconnect(s, u) else s
  }

  /** The wait loop of `processUntil` for registration key: poll steps go
      on while input remains, the connection is open and nothing has arrived. */
  function AfterWait(s: Snapshot, u: Setup, key: nat, polls: seq<PollStep>): Snapshot
    decreases |polls|
  {
    if polls == [] || s.disconnected || (key in s.counts && s.counts[key] >= 1) then s
    else AfterWait(AfterPoll(s, u, polls[0]), u, key, polls[1..])
  }

  /** The wait registrations of an engine state agree. */
  ghost predicate WaitsIn(s: Snapshot, u: Setup, next: nat) {
    WaitValid(u.until, s.counts, s.payloads, next)
  }

  // ---------------------------------------------------------------------------
  // The engine

  class Stream {
    var xmlDepth: int
    /** Namespace per depth. */
    var currentNs: map<int, string>
    /** Prefix bindings; entries are never removed. */
    var nsMap: map<string, string>
    /** The node table, keyed by depth, in insertion order. */
    var xmlobj: Dict<int, Element>
    var nshandlers: seq<NsHandler>
    var xpathhandlers: seq<PathHandler>
    var idhandlers: Dict<nat, Handler>
    var eventhandlers: seq<EventHandler>
    var lastid: nat
    /** Never assigned: the client sets a differently spelled field. */
    var defaultNs: string
    var until: map<nat, set<string>>
    var untilCount: map<nat, nat>
    var untilPayload: map<nat, Queue>
    /** The index the next `$this->until[] = ...` uses. */
    var nextUntilKey: nat
    var beenReset: bool
    var disconnected: bool
    var sentDisconnect: bool
    var reconnect: bool
    var isServer: bool
    var streamStart: string
    var streamEnd: string
    /** Everything written to the socket, in order. */
    var outbox: seq<string>
    /** Every handler call the engine made, in order. */
    var trace: seq<Call>

    /** The stanza node exists whenever the depth is 2 or more; id handler
        keys are distinct; the wait registrations agree. */
    ghost predicate Valid()
      reads this`xmlDepth, this`xmlobj, this`idhandlers, this`until, this`untilCount, this`untilPayload, this`nextUntilKey
    {
      TableValid() && IdsValid() && WaitsValid()
    }

    ghost predicate TableValid()
      reads this`xmlDepth, this`xmlobj
    {
      xmlDepth >= 2 ==> HasKey(xmlobj, 2)
    }

    ghost predicate IdsValid()
      reads this`idhandlers
    {
      DistinctKeys(idhandlers)
    }

    ghost predicate WaitsValid()
      reads this`until, this`untilCount, this`untilPayload, this`nextUntilKey
    {
      WaitValid(until, untilCount, untilPayload, nextUntilKey)
    }

    /** The engine's changing part as a value. */
    function Snap(): Snapshot
      reads this`xmlDepth, this`currentNs, this`nsMap, this`xmlobj, this`beenReset, this`idhandlers, this`trace,
            this`outbox, this`untilPayload, this`untilCount, this`disconnected, this`sentDisconnect
    {
      Snapshot(xmlDepth, currentNs, nsMap, xmlobj, beenReset, idhandlers, trace, outbox,
               untilPayload, untilCount, disconnected, sentDisconnect)
    }

    /** The engine's fixed part as a value. */
    function Cfg(): Setup
      reads this`xpathhandlers, this`nshandlers, this`eventhandlers, this`until, this`defaultNs, this`reconnect,
            this`isServer, this`streamStart, this`streamEnd
    {
      Setup(xpathhandlers, nshandlers, eventhandlers, until, defaultNs, reconnect, isServer, streamStart, streamEnd)
    }

    constructor (isServer: bool)
      ensures Valid()
      ensures this.isServer == isServer && reconnect == !isServer
      ensures xmlDepth == 0 && xmlobj == [] && currentNs == map[] && nsMap == map[]
      ensures nshandlers == [] && xpathhandlers == [] && idhandlers == [] && eventhandlers == []
      ensures lastid == 0 && defaultNs == "" && until == map[] && nextUntilKey == 0
      ensures !beenReset && !disconnected && !sentDisconnect
      ensures streamStart == "<stream>" && streamEnd == "</stream>"
      ensures outbox == [] && trace == []
    {
      this.isServer := isServer;
      reconnect := !isServer;
      xmlDepth := 0;
      currentNs, nsMap, xmlobj := map[], map[], [];
      nshandlers, xpathhandlers, idhandlers, eventhandlers := [], [], [], [];
      lastid := 0;
      defaultNs := "";
      until, untilCount, untilPayload, nextUntilKey := map[], map[], map[], 0;
      beenReset, disconnected, sentDisconnect := false, false, false;
      streamStart, streamEnd := "<stream>", "</stream>";
      outbox, trace := [], [];
    }

    /** The next id: one more than the last. */
    method GetId() returns (id: nat)
      modifies this`lastid
      ensures id == old(lastid) + 1 && lastid == id
    {
      lastid := lastid + 1;
      id := lastid;
    }

    method AddIdHandler(id: nat, h: Handler)
      requires Valid()
      modifies this`idhandlers
      ensures Valid()
      ensures idhandlers == Put(old(idhandlers), id, h)
      ensures Get(idhandlers, id) == Some(h)
      ensures forall k :: k != id ==> Get(idhandlers, k) == Get(old(idhandlers), k)
    {
      PutDistinct(idhandlers, id, h);
      PutGet(idhandlers, id, h);
      forall k | k != id ensures Get(Put(idhandlers, id, h), k) == Get(idhandlers, k) {
        PutOther(idhandlers, id, h, k);
      }
      idhandlers := Put(idhandlers, id, h);
    }

    method AddHandler(name: string, ns: string, h: Handler, depth: int)
      modifies this`nshandlers
      ensures nshandlers == old(nshandlers) + [NsHandler(name, ns, h, depth)]
    {
      nshandlers := nshandlers + [NsHandler(name, ns, h, depth)];
    }

    method AddXPathHandler(xpath: string, h: Handler)
      modifies this`xpathhandlers
      ensures xpathhandlers == old(xpathhandlers) + [PathHandler(Compile(xpath), h)]
    {
      var path := CompilePath(xpath);
      xpathhandlers := xpathhandlers + [PathHandler(path, h)];
    }

    method AddEventHandler(name: string, h: Handler)
      modifies this`eventhandlers
      ensures eventhandlers == old(eventhandlers) + [EventHandler(name, h)]
    {
      eventhandlers := eventhandlers + [EventHandler(name, h)];
    }

    method Send(msg: string)
      modifies this`outbox
      ensures outbox == old(outbox) + [msg]
    {
      outbox := outbox + [msg];
    }

    /** `reset`: the parser restarts and the opening tag is sent again. */
    method Reset()
      modifies this`xmlDepth, this`xmlobj, this`outbox, this`beenReset
      ensures TableValid()
      ensures Cfg() == old(Cfg()) && Snap() == AfterReset(old(Snap()), old(Cfg()))
    {
      xmlDepth := 0;
      xmlobj := [];
      if !isServer {
        Send(streamStart);
      }
      beenReset := true;
    }

    // -------------------------------------------------------------------------
    // Parser callbacks

    method StartXml(name: string, attrs: Dict<string, string>)
      requires TableValid()
      modifies this`beenReset, this`xmlDepth, this`currentNs, this`nsMap, this`xmlobj
      ensures TableValid()
      ensures Cfg() == old(Cfg()) && Snap() == AfterStart(old(Snap()), old(Cfg()), name, attrs)
    {
      Descend(attrs);
      AddNode(NewElement(name, attrs, nsMap, currentNs[xmlDepth]));
    }

    method Descend(attrs: Dict<string, string>)
      requires TableValid()
      modifies this`beenReset, this`xmlDepth, this`currentNs, this`nsMap
      ensures xmlDepth >= 3 ==> HasKey(xmlobj, 2)
      ensures Cfg() == old(Cfg()) && Snap() == Descended(old(Snap()), old(Cfg()), attrs)
    {
      ghost var s, u := Snap(), Cfg();
      var d := (if beenReset then 0 else xmlDepth) + 1;
      var m := DeclareAll(nsMap, attrs);
      beenReset, xmlDepth, currentNs, nsMap := false, d, currentNs[d := DepthNs(attrs, NsAt(currentNs, d - 1), defaultNs)], m;
      assert Snap() == Descended(s, u, attrs);
    }

    /** The new node is appended to its parent's children and recorded at
        its own depth. */
    method AddNode(e: Element)
      requires xmlDepth >= 3 ==> HasKey(xmlobj, 2)
      modifies this`xmlobj
      ensures TableValid()
      ensures Cfg() == old(Cfg()) && Snap() == Added(old(Snap()), e)
    {
      var t := AttachChild(xmlobj, xmlDepth, e);
      if xmlDepth == 2 {
        PutGet(t, 2, e);
      } else if xmlDepth > 2 {
        AttachKeeps(xmlobj, xmlDepth, e, 2);
        PutKeeps(t, xmlDepth, e, 2);
      }
      xmlobj := Put(t, xmlDepth, e);
    }

    method CharXml(data: string)
      requires TableValid()
      modifies this`xmlobj
      ensures TableValid()
      ensures Snap() == AfterChar(old(Snap()), data)
    {
      match Get(xmlobj, xmlDepth)
      case Some(e) =>
        if xmlDepth >= 2 {
          PutKeeps(xmlobj, xmlDepth, e.(data := e.data + data), 2);
        }
        xmlobj := Put(xmlobj, xmlDepth, e.(data := e.data + data));
      case None =>
    }

    /** The new state is `AfterEnd` of the old one; `EndCases` spells out
        the three cases. */
    method EndXml(name: string)
      requires TableValid() && IdsValid()
      modifies this`beenReset, this`xmlDepth, this`xmlobj, this`trace, this`idhandlers, this`disconnected,
               this`sentDisconnect, this`outbox, this`untilPayload, this`untilCount
      ensures TableValid() && IdsValid()
      ensures Cfg() == old(Cfg()) && Snap() == AfterEnd(old(Snap()), old(Cfg()))
    {
      CloseNode();
      if xmlDepth == 1 {
        FinishStanza();
      }
      if xmlDepth == 0 && !beenReset {
        EndOfStream();
      }
    }

    /** One level up, and the closing node's final value replaces its copy
        under the parent. */
    method CloseNode()
      requires TableValid()
      modifies this`beenReset, this`xmlDepth, this`xmlobj
      ensures TableValid()
      ensures Cfg() == old(Cfg()) && Snap() == Closed(old(Snap()))
      ensures xmlDepth == 1 ==> HasKey(xmlobj, 2)
    {
      if beenReset {
        beenReset := false;
        xmlDepth := 0;
      }
      var d := xmlDepth;
      xmlDepth := d - 1;
      RefreshKeeps(xmlobj, d, 2);
      xmlobj := RefreshChild(xmlobj, d);
    }

    /** Back at depth 1: the stanza under entry 2 is dispatched and the table
        is cut back to the stream's root. */
    method FinishStanza()
      requires IdsValid() && xmlDepth == 1 && HasKey(xmlobj, 2)
      modifies this`trace, this`idhandlers, this`xmlobj
      ensures TableValid() && IdsValid()
      ensures Cfg() == old(Cfg()) && Snap() == AfterStanza(old(Snap()), old(Cfg()))
    {
      Dispatch(Get(xmlobj, 2).value);
      xmlobj := Truncate(xmlobj);
    }

    /** A finished stanza goes through the path handlers, the name/namespace
        handlers and the id handlers, in that order. */
    method Dispatch(stanza: Element)
      requires IdsValid()
      modifies this`trace, this`idhandlers
      ensures IdsValid()
      ensures var i := FirstIdIndex(old(idhandlers), stanza);
        && trace == old(trace) + PathCalls(xpathhandlers, stanza) + NsCalls(nshandlers, stanza, defaultNs)
                    + (if i >= 0 then [StanzaCall(old(idhandlers)[i].1, stanza)] else [])
        && idhandlers == (if i >= 0 then Remove(old(idhandlers), old(idhandlers)[i].0) else old(idhandlers))
    {
      DispatchPaths(stanza);
      DispatchNs(stanza);
      DispatchId(stanza);
    }

    method DispatchPaths(stanza: Element)
      modifies this`trace
      ensures trace == old(trace) + PathCalls(xpathhandlers, stanza)
    {
      var i := 0;
      while i < |xpathhandlers|
        invariant 0 <= i <= |xpathhandlers|
        invariant trace == old(trace) + PathCalls(xpathhandlers[..i], stanza)
      {
        var h := xpathhandlers[i];
        assert xpathhandlers[..i + 1][..i] == xpathhandlers[..i];
        var found := MatchPath(h.path, stanza);
        if found {
          trace := trace + [StanzaCall(h.handler, stanza)];
        }
        i := i + 1;
      }
      assert xpathhandlers[..i] == xpathhandlers;
    }

    method DispatchNs(stanza: Element)
      modifies this`trace
      ensures trace == old(trace) + NsCalls(nshandlers, stanza, defaultNs)
    {
      var i := 0;
      while i < |nshandlers|
        invariant 0 <= i <= |nshandlers|
        invariant trace == old(trace) + NsCalls(nshandlers[..i], stanza, defaultNs)
      {
        var h := nshandlers[i];
        assert nshandlers[..i + 1][..i] == nshandlers[..i];
        if NsMatches(h, stanza, defaultNs) {
          trace := trace + [StanzaCall(h.handler, stanza)];
        }
        i := i + 1;
      }
      assert nshandlers[..i] == nshandlers;
    }

    /** The first id handler whose key is the stanza's id fires and is
        removed; the loop stops there. */
    method DispatchId(stanza: Element)
      requires IdsValid()
      modifies this`trace, this`idhandlers
      ensures IdsValid()
      ensures var i := FirstIdIndex(old(idhandlers), stanza);
        && trace == old(trace) + (if i >= 0 then [StanzaCall(old(idhandlers)[i].1, stanza)] else [])
        && idhandlers == (if i >= 0 then Remove(old(idhandlers), old(idhandlers)[i].0) else old(idhandlers))
    {
      var i := 0;
      while i < |idhandlers|
        invariant 0 <= i <= |idhandlers|
        invariant forall j :: 0 <= j < i ==> !IdMatch(idhandlers[j].0, stanza)
      {
        var (k, h) := idhandlers[i];
        if IdMatch(k, stanza) {
          trace := trace + [StanzaCall(h, stanza)];
          RemoveDistinct(idhandlers, k);
          idhandlers := Remove(idhandlers, k);
          return;
        }
        i := i + 1;
      }
    }

    /** Depth 0 without a pending reset: the server closed the stream. */
    method EndOfStream()
      requires TableValid()
      modifies this`disconnected, this`sentDisconnect, this`outbox, this`trace, this`untilPayload,
               this`untilCount, this`xmlDepth, this`xmlobj, this`beenReset
      ensures TableValid()
      ensures Cfg() == old(Cfg()) && Snap() == AfterStreamEnd(old(Snap()), old(Cfg()))
    {
      if !disconnected {
        CloseConnection();
        Event("end_stream", Null);
      } else {
        Event("end_stream", Null);
      }
    }

    /** The closing tag is sent unless it already was; the connection is
        then marked closed, and reopened when reconnection is on. */
    method CloseConnection()
      requires TableValid() && !disconnected
      modifies this`disconnected, this`sentDisconnect, this`outbox, this`trace, this`untilPayload,
               this`untilCount, this`xmlDepth, this`xmlobj, this`beenReset
      ensures TableValid()
      ensures Cfg() == old(Cfg()) && Snap() == AfterClose(old(Snap()), old(Cfg()))
    {
      if !sentDisconnect {
        Send(streamEnd);
      }
      disconnected := true;
      sentDisconnect := true;
      if reconnect {
        DoReconnect();
      }
    }

    /** `doReconnect`, with the connection attempt taken to succeed. */
    method DoReconnect()
      requires TableValid()
      modifies this`disconnected, this`sentDisconnect, this`outbox, this`trace, this`untilPayload,
               this`untilCount, this`xmlDepth, this`xmlobj, this`beenReset
      ensures TableValid()
      ensures Cfg() == old(Cfg()) && Snap() == AfterReconnect(old(Snap()), old(Cfg()))
    {
      if !isServer {
        disconnected := false;
        sentDisconnect := false;
        Reset();
        Event("reconnect", Null);
      }
    }

    // -------------------------------------------------------------------------
    // Events and waiting

    method Event(name: string, payload: Value)
      modifies this`trace, this`untilPayload, this`untilCount
      ensures Cfg() == old(Cfg()) && Snap() == AfterEvent(old(Snap()), old(Cfg()), name, payload)
      ensures trace == old(trace) + EventCalls(eventhandlers, name, payload)
      ensures var hit := Waiting(until, until.Keys, name);
        untilPayload == Enqueue(old(untilPayload), hit, name, payload) && untilCount == Bump(old(untilCount), hit)
    {
      NotifyHandlers(name, payload);
      EnqueueWaits(name, payload);
    }

    /** Every event handler registered under the name, in registration order. */
    method NotifyHandlers(name: string, payload: Value)
      modifies this`trace
      ensures trace == old(trace) + EventCalls(eventhandlers, name, payload)
    {
      var i := 0;
      while i < |eventhandlers|
        invariant 0 <= i <= |eventhandlers|
        invariant trace == old(trace) + EventCalls(eventhandlers[..i], name, payload)
      {
        var h := eventhandlers[i];
        assert eventhandlers[..i + 1][..i] == eventhandlers[..i];
        if h.name == name {
          trace := trace + [EventCall(h.handler, payload)];
        }
        i := i + 1;
      }
      assert eventhandlers[..i] == eventhandlers;
    }

    /** Every registration waiting for the name records the pair and counts it. */
    method EnqueueWaits(name: string, payload: Value)
      modifies this`untilPayload, this`untilCount
      ensures var hit := Waiting(until, until.Keys, name);
        untilPayload == Enqueue(old(untilPayload), hit, name, payload) && untilCount == Bump(old(untilCount), hit)
    {
      untilPayload, untilCount := EnqueueAll(until, untilPayload, untilCount, name, payload);
    }

    /** `processUntil` on a set of event names; |polls| bounds the poll steps
        of waiting in place of the timeout. The names are registered under the
        next key with a count of 0, the poll steps run as `AfterWait` says, and
        the queue is handed back and the registration dropped exactly when
        something arrived. */
    method ProcessUntil(events: set<string>, polls: seq<PollStep>) returns (payload: Queue)
      requires Valid()
      modifies this`beenReset, this`xmlDepth, this`currentNs, this`nsMap, this`xmlobj, this`trace, this`idhandlers,
               this`disconnected, this`sentDisconnect, this`outbox, this`untilPayload, this`untilCount,
               this`until, this`nextUntilKey
      ensures Valid()
      ensures nextUntilKey == old(nextUntilKey) + 1
      ensures var key := old(nextUntilKey);
        var w := AfterWait(old(Snap()).(counts := old(untilCount)[key := 0]), old(Cfg()).(until := old(until)[key := events]), key, polls);
        && payload == (if key in w.payloads then w.payloads[key] else [])
        && (key in w.payloads ==>
              until == old(until) && Snap() == w.(payloads := w.payloads - {key}, counts := w.counts - {key}))
        && (key !in w.payloads ==> until == old(until)[key := events] && Snap() == w)
      ensures var key := old(nextUntilKey);
        && (payload != [] <==> key !in until)
        && key !in untilPayload
        && (payload == [] ==> key in until && until[key] == events && key in untilCount && untilCount[key] == 0)
        && (payload != [] ==> key !in untilCount)
      ensures forall j :: 0 <= j < |payload| ==> payload[j].0 in events
    {
      var key := Register(events);
      payload := Await(key, polls);
      if payload != [] {
        assert until == old(until);
      }
    }

    /** The wait loop for a registration and the collection of its queue. */
    method Await(key: nat, polls: seq<PollStep>) returns (payload: Queue)
      requires TableValid() && IdsValid() && WaitsIn(Snap(), Cfg(), nextUntilKey) && key in until
      modifies this`beenReset, this`xmlDepth, this`currentNs, this`nsMap, this`xmlobj, this`trace, this`idhandlers,
               this`disconnected, this`sentDisconnect, this`outbox, this`untilPayload, this`untilCount, this`until
      ensures Valid()
      ensures var w := AfterWait(old(Snap()), old(Cfg()), key, polls);
        && payload == (if key in w.payloads then w.payloads[key] else [])
        && (key in w.payloads ==>
              until == old(until) - {key} && Snap() == w.(payloads := w.payloads - {key}, counts := w.counts - {key}))
        && (key !in w.payloads ==> until == old(until) && Snap() == w)
      ensures && (payload != [] <==> key !in until)
              && key !in untilPayload
              && (payload == [] ==> key in untilCount && untilCount[key] == 0)
              && (payload != [] ==> key !in untilCount)
      ensures forall j :: 0 <= j < |payload| ==> payload[j].0 in old(until)[key]
    {
      WaitFor(key, polls);
      payload := Collect(key);
    }

    /** `$this->until[] = $event` with its count at 0. */
    method Register(events: set<string>) returns (key: nat)
      requires WaitsValid()
      modifies this`until, this`untilCount, this`nextUntilKey
      ensures key == old(nextUntilKey) && nextUntilKey == key + 1 && key !in old(until)
      ensures Snap() == old(Snap()).(counts := old(untilCount)[key := 0])
      ensures Cfg() == old(Cfg()).(until := old(until)[key := events])
      ensures WaitsIn(Snap(), Cfg(), nextUntilKey) && key !in untilPayload
    {
      key := nextUntilKey;
      RegisterKeepsWait(until, untilCount, untilPayload, key, events);
      nextUntilKey := nextUntilKey + 1;
      until := until[key := events];
      untilCount := untilCount[key := 0];
    }

    /** The wait loop: poll while connected, unfinished and within bounds. */
    method WaitFor(key: nat, polls: seq<PollStep>)
      requires TableValid() && IdsValid() && WaitsIn(Snap(), Cfg(), nextUntilKey) && key in until
      modifies this`beenReset, this`xmlDepth, this`currentNs, this`nsMap, this`xmlobj, this`trace, this`idhandlers,
               this`disconnected, this`sentDisconnect, this`outbox, this`untilPayload, this`untilCount
      ensures TableValid() && IdsValid() && WaitsIn(Snap(), Cfg(), nextUntilKey)
      ensures Cfg() == old(Cfg()) && Snap() == AfterWait(old(Snap()), old(Cfg()), key, polls)
    {
      var i := 0;
      assert WaitOk(until, untilCount, untilPayload, nextUntilKey, key);
      while i < |polls| && !disconnected && untilCount[key] < 1
        invariant TableValid() && IdsValid() && WaitsIn(Snap(), Cfg(), nextUntilKey) && 0 <= i <= |polls|
        invariant key in untilCount
        invariant Cfg() == old(Cfg()) && AfterWait(Snap(), old(Cfg()), key, polls[i..]) == AfterWait(old(Snap()), old(Cfg()), key, polls)
        decreases |polls| - i
      {
        assert polls[i..][1..] == polls[i + 1..];
        PollKeeps(Snap(), old(Cfg()), polls[i], nextUntilKey);
        Poll(polls[i]);
        assert WaitOk(until, untilCount, untilPayload, nextUntilKey, key);
        i := i + 1;
      }
    }

    /** One step of a round of `__process`. */
    method Poll(step: PollStep)
      requires TableValid() && IdsValid()
      modifies this`beenReset, this`xmlDepth, this`currentNs, this`nsMap, this`xmlobj, this`trace, this`idhandlers,
               this`disconnected, this`sentDisconnect, this`outbox, this`untilPayload, this`untilCount
      ensures TableValid() && IdsValid()
      ensures Cfg() == old(Cfg()) && Snap() == AfterPoll(old(Snap()), old(Cfg()), step)
    {
      match step {
        case Received(input) => Feed(input);
        case Raised(raised) => RaiseAll(raised);
        case Lost =>
          if reconnect {
            DoReconnect();
          }
      }
    }

    /** The payload is handed back and the registration dropped only when
        something was recorded. */
    method Collect(key: nat) returns (payload: Queue)
      requires WaitsIn(Snap(), Cfg(), nextUntilKey) && key in until
      modifies this`until, this`untilCount, this`untilPayload
      ensures WaitsValid()
      ensures payload == (if key in old(untilPayload) then old(untilPayload)[key] else [])
      ensures key in old(untilPayload) ==>
        && until == old(until) - {key}
        && Snap() == old(Snap()).(payloads := old(untilPayload) - {key}, counts := old(untilCount) - {key})
      ensures key !in old(untilPayload) ==> until == old(until) && Snap() == old(Snap())
      ensures payload == [] <==> key !in old(untilPayload)
      ensures payload == [] ==> key in untilCount && untilCount[key] == 0
      ensures payload != [] ==> key !in until && key !in untilCount
      ensures key !in untilPayload
      ensures forall j :: 0 <= j < |payload| ==> payload[j].0 in old(until)[key]
    {
      assert WaitOk(until, untilCount, untilPayload, nextUntilKey, key);
      if key in untilPayload {
        forall k: nat ensures WaitOk(until - {key}, untilCount - {key}, untilPayload - {key}, nextUntilKey, k) {
          assert WaitOk(until, untilCount, untilPayload, nextUntilKey, k);
        }
        payload := untilPayload[key];
        untilPayload := untilPayload - {key};
        untilCount := untilCount - {key};
        until := until - {key};
      } else {
        payload := [];
      }
    }

    /** `processUntil` on one event name: the name alone is registered. */
    method ProcessUntilEvent(name: string, polls: seq<PollStep>) returns (payload: Queue)
      requires Valid()
      modifies this`beenReset, this`xmlDepth, this`currentNs, this`nsMap, this`xmlobj, this`trace, this`idhandlers,
               this`disconnected, this`sentDisconnect, this`outbox, this`untilPayload, this`untilCount,
               this`until, this`nextUntilKey
      ensures Valid()
      ensures nextUntilKey == old(nextUntilKey) + 1
      ensures var key := old(nextUntilKey);
        var w := AfterWait(old(Snap()).(counts := old(untilCount)[key := 0]), old(Cfg()).(until := old(until)[key := {name}]), key, polls);
        && payload == (if key in w.payloads then w.payloads[key] else [])
        && (key in w.payloads ==>
              until == old(until) && Snap() == w.(payloads := w.payloads - {key}, counts := w.counts - {key}))
        && (key !in w.payloads ==> until == old(until)[key := {name}] && Snap() == w)
      ensures var key := old(nextUntilKey);
        && (payload != [] <==> key !in until)
        && key !in untilPayload
        && (payload == [] ==> key in until && until[key] == {name} && key in untilCount && untilCount[key] == 0)
        && (payload != [] ==> key !in untilCount)
      ensures forall j :: 0 <= j < |payload| ==> payload[j].0 == name
    {
      payload := ProcessUntil({name}, polls);
    }

    /** Events raised, one after the other, by handlers run during a poll. */
    method RaiseAll(raised: seq<(string, Value)>)
      modifies this`trace, this`untilPayload, this`untilCount
      ensures Cfg() == old(Cfg()) && Snap() == AfterEvents(old(Snap()), old(Cfg()), raised)
    {
      for j := 0 to |raised|
        invariant Cfg() == old(Cfg()) && Snap() == AfterEvents(old(Snap()), old(Cfg()), raised[..j])
      {
        assert raised[..j + 1][..j] == raised[..j];
        Event(raised[j].0, raised[j].1);
      }
      assert raised[..|raised|] == raised;
    }

    /** `xml_parse` on received input: the callbacks, in document order. */
    method Feed(input: seq<XmlEvent>)
      requires TableValid() && IdsValid()
      modifies this`beenReset, this`xmlDepth, this`currentNs, this`nsMap, this`xmlobj, this`trace, this`idhandlers,
               this`disconnected, this`sentDisconnect, this`outbox, this`untilPayload, this`untilCount
      ensures TableValid() && IdsValid()
      ensures Cfg() == old(Cfg()) && Snap() == AfterInput(old(Snap()), old(Cfg()), input)
    {
      for j := 0 to |input|
        invariant TableValid() && IdsValid()
        invariant Cfg() == old(Cfg()) && Snap() == AfterInput(old(Snap()), old(Cfg()), input[..j])
      {
        assert input[..j + 1][..j] == input[..j];
        Callback(input[j]);
      }
      assert input[..|input|] == input;
    }

    /** The callback the parser makes for one event. */
    method Callback(x: XmlEvent)
      requires TableValid() && IdsValid()
      modifies this`beenReset, this`xmlDepth, this`currentNs, this`nsMap, this`xmlobj, this`trace, this`idhandlers,
               this`disconnected, this`sentDisconnect, this`outbox, this`untilPayload, this`untilCount
      ensures TableValid() && IdsValid()
      ensures Cfg() == old(Cfg()) && Snap() == AfterXml(old(Snap()), old(Cfg()), x)
    {
      match x
      case Start(n, a) => StartXml(n, a);
      case End(n) => EndXml(n);
      case Text(t) => CharXml(t);
    }
  }

  // ---------------------------------------------------------------------------
  // Lemmas

  /** `endXML` below a stanza (the new depth is not 1 or 0): one level up,
      the reset flag cleared, and the closed node's final value put in place
      of its copy under the parent; nothing else changes. */
  lemma EndBelowStanza(s: Snapshot, u: Setup)
    requires (if s.reset then 0 else s.depth) - 1 !in {0, 1}
    ensures var d := if s.reset then 0 else s.depth;
      AfterEnd(s, u) == s.(reset := false, depth := d - 1, table := RefreshChild(s.table, d))
  {
  }

  /** `endXML` that brings the depth back to 1: the stanza (entry 2, after
      the refresh) goes to the path handlers, then the name/namespace
      handlers, then the first fitting id handler, which is removed; the
      table is cut back. The namespaces, the socket, the wait queues and the
      connection flags are untouched. */
  lemma EndStanza(s: Snapshot, u: Setup)
    requires (if s.reset then 0 else s.depth) == 2
    ensures var t := RefreshChild(s.table, 2);
      var r := AfterEnd(s, u);
      && r.depth == 1 && !r.reset && r.table == Truncate(t)
      && r.currentNs == s.currentNs && r.nsMap == s.nsMap && r.outbox == s.outbox
      && r.payloads == s.payloads && r.counts == s.counts
      && r.disconnected == s.disconnected && r.sentDisconnect == s.sentDisconnect
      && (!HasKey(t, 2) ==> r.trace == s.trace && r.ids == s.ids)
      && (HasKey(t, 2) ==>
            var stanza := Get(t, 2).value;
            var i := FirstIdIndex(s.ids, stanza);
            && r.trace == s.trace + PathCalls(u.xpath, stanza) + NsCalls(u.ns, stanza, u.defaultNs)
                          + (if i >= 0 then [StanzaCall(s.ids[i].1, stanza)] else [])
            && r.ids == (if i >= 0 then Remove(s.ids, s.ids[i].0) else s.ids))
  {
    var c := Closed(s);
    assert c == s.(reset := false, depth := 1, table := RefreshChild(s.table, 2));
    assert AfterEnd(s, u) == AfterStanza(c, u);
  }

  /** `disconnect` when the connection is taken down: the closing tag unless
      it was already sent, both flags set; a client with reconnection on
      then reopens at once, clearing both flags, sending the opening tag,
      emptying the table, setting a reset pending and raising `reconnect`. */
  lemma CloseEffects(s: Snapshot, u: Setup)
    ensures var reopen := u.reconnect && !u.isServer;
      var hr := Waiting(u.until, u.until.Keys, "reconnect");
      var r := AfterClose(s, u);
      && r.outbox == s.outbox + (if s.sentDisconnect then [] else [u.streamEnd]) + (if reopen then [u.streamStart] else [])
      && r.disconnected == !reopen && r.sentDisconnect == !reopen
      && r.depth == (if reopen then 0 else s.depth) && r.reset == (reopen || s.reset)
      && r.table == (if reopen then [] else s.table)
      && r.trace == s.trace + (if reopen then EventCalls(u.events, "reconnect", Null) else [])
      && r.payloads == (if reopen then Enqueue(s.payloads, hr, "reconnect", Null) else s.payloads)
      && r.counts == (if reopen then Bump(s.counts, hr) else s.counts)
      && r.currentNs == s.currentNs && r.nsMap == s.nsMap && r.ids == s.ids
  {
  }

  /** `endXML` of the stream's root (the new depth is 0, no reset pending).
      An open connection is closed: the closing tag is sent unless it was
      already, and a client with reconnection on reopens at once, sending
      the opening tag, clearing the table, setting a reset pending and
      raising `reconnect`. `end_stream` is raised in every case. */
  lemma EndStream(s: Snapshot, u: Setup)
    requires !s.reset && s.depth == 1
    ensures var reopen := !s.disconnected && u.reconnect && !u.isServer;
      var hr, he := Waiting(u.until, u.until.Keys, "reconnect"), Waiting(u.until, u.until.Keys, "end_stream");
      var r := AfterEnd(s, u);
      && r.outbox == s.outbox + (if s.disconnected || s.sentDisconnect then [] else [u.streamEnd])
                              + (if reopen then [u.streamStart] else [])
      && r.disconnected == (s.disconnected || !u.reconnect || u.isServer)
      && r.sentDisconnect == (if s.disconnected then s.sentDisconnect else !reopen)
      && r.depth == 0 && r.reset == reopen
      && r.table == (if reopen then [] else s.table)
      && r.trace == s.trace + (if reopen then EventCalls(u.events, "reconnect", Null) else [])
                            + EventCalls(u.events, "end_stream", Null)
      && r.payloads == Enqueue(if reopen then Enqueue(s.payloads, hr, "reconnect", Null) else s.payloads,
                               he, "end_stream", Null)
      && r.counts == Bump(if reopen then Bump(s.counts, hr) else s.counts, he)
      && r.currentNs == s.currentNs && r.nsMap == s.nsMap && r.ids == s.ids
  {
  }

  /** Received `<n a><c b>t</c></n>` from depth 1 with no reset pending: the
      stanza that reaches the handlers is n with c, holding text t, as its one
      child, with namespaces resolved as `startXML` does; the engine is back
      at depth 1 and nothing is sent or queued. */
  lemma OneChildStanza(s: Snapshot, u: Setup, n: string, a: Dict<string, string>, c: string, b: Dict<string, string>,
                       t: string)
    requires s.depth == 1 && !s.reset
    ensures var m1 := Declare(s.nsMap, a);
      var ns2 := DepthNs(a, NsAt(s.currentNs, 1), u.defaultNs);
      var m2 := Declare(m1, b);
      var ns3 := DepthNs(b, ns2, u.defaultNs);
      var stanza := NewElement(n, a, m1, ns2).(subs := [NewElement(c, b, m2, ns3).(data := t)]);
      var i := FirstIdIndex(s.ids, stanza);
      var r := AfterInput(s, u, [Start(n, a), Start(c, b), Text(t), End(c), End(n)]);
      && r.trace == s.trace + PathCalls(u.xpath, stanza) + NsCalls(u.ns, stanza, u.defaultNs)
                            + (if i >= 0 then [StanzaCall(s.ids[i].1, stanza)] else [])
      && r.ids == (if i >= 0 then Remove(s.ids, s.ids[i].0) else s.ids)
      && r.depth == 1 && !r.reset && r.nsMap == m2 && r.currentNs == s.currentNs[2 := ns2][3 := ns3]
      && r.outbox == s.outbox && r.payloads == s.payloads && r.counts == s.counts
      && r.disconnected == s.disconnected && r.sentDisconnect == s.sentDisconnect
  {
    var m1 := Declare(s.nsMap, a);
    var ns2 := DepthNs(a, NsAt(s.currentNs, 1), u.defaultNs);
    var e1 := NewElement(n, a, m1, ns2);
    var e2 := NewElement(c, b, Declare(m1, b), DepthNs(b, ns2, u.defaultNs));
    OneChildTable(s.table, e1, e2, t);
    var s3 := OneChildOpen(s, u, n, a, c, b, t);
    var s4 := AfterEnd(s3, u);
    EndBelowStanza(s3, u);
    EndStanza(s4, u);
    OneChildCallbacks(s, u, n, a, c, b, t);
  }

  /** The first three callbacks of `OneChildStanza`: both nodes open, the
      child holding the text. */
  lemma OneChildOpen(s: Snapshot, u: Setup, n: string, a: Dict<string, string>, c: string, b: Dict<string, string>,
                     t: string) returns (s3: Snapshot)
    requires s.depth == 1 && !s.reset
    ensures var m1 := Declare(s.nsMap, a);
      var ns2 := DepthNs(a, NsAt(s.currentNs, 1), u.defaultNs);
      var m2 := Declare(m1, b);
      var ns3 := DepthNs(b, ns2, u.defaultNs);
      var e1 := NewElement(n, a, m1, ns2);
      var e2 := NewElement(c, b, m2, ns3);
      var t1 := Put(AttachChild(s.table, 2, e1), 2, e1);
      && s3 == AfterChar(AfterStart(AfterStart(s, u, n, a), u, c, b), t)
      && s3 == s.(depth := 3, currentNs := s.currentNs[2 := ns2][3 := ns3], nsMap := m2,
                  table := Put(Put(AttachChild(t1, 3, e2), 3, e2), 3, e2.(data := t)))
  {
    var m1 := Declare(s.nsMap, a);
    var ns2 := DepthNs(a, NsAt(s.currentNs, 1), u.defaultNs);
    var m2 := Declare(m1, b);
    var ns3 := DepthNs(b, ns2, u.defaultNs);
    var e1 := NewElement(n, a, m1, ns2);
    var e2 := NewElement(c, b, m2, ns3);
    OneChildTable(s.table, e1, e2, t);
    var t1 := Put(AttachChild(s.table, 2, e1), 2, e1);
    var t2 := Put(AttachChild(t1, 3, e2), 3, e2);
    var s1 := s.(reset := false, depth := 2, currentNs := s.currentNs[2 := ns2], nsMap := m1, table := t1);
    assert AfterStart(s, u, n, a) == s1;
    var s2 := s1.(depth := 3, currentNs := s1.currentNs[3 := ns3], nsMap := m2, table := t2);
    assert NsAt(s1.currentNs, 2) == ns2;
    assert AfterStart(s1, u, c, b) == s2;
    assert e2.data + t == t;
    s3 := s2.(table := Put(t2, 3, e2.(data := t)));
    assert AfterChar(s2, t) == s3;
  }

  /** The five callbacks of `OneChildStanza`, one after the other. */
  lemma OneChildCallbacks(s: Snapshot, u: Setup, n: string, a: Dict<string, string>, c: string,
                          b: Dict<string, string>, t: string)
    ensures AfterInput(s, u, [Start(n, a), Start(c, b), Text(t), End(c), End(n)])
         == AfterEnd(AfterEnd(AfterChar(AfterStart(AfterStart(s, u, n, a), u, c, b), t), u), u)
  {
    var opening := [Start(n, a), Start(c, b), Text(t)];
    var closing := [End(c), End(n)];
    InputAppend(s, u, opening, closing);
    assert opening + closing == [Start(n, a), Start(c, b), Text(t), End(c), End(n)];
    OpeningCallbacks(s, u, n, a, c, b, t);
    ClosingCallbacks(AfterInput(s, u, opening), u, c, n);
  }

  lemma OpeningCallbacks(s: Snapshot, u: Setup, n: string, a: Dict<string, string>, c: string,
                         b: Dict<string, string>, t: string)
    ensures AfterInput(s, u, [Start(n, a), Start(c, b), Text(t)]) == AfterChar(AfterStart(AfterStart(s, u, n, a), u, c, b), t)
  {
    var input := [Start(n, a), Start(c, b), Text(t)];
    InputStep(s, u, input, 1);
    InputStep(s, u, input, 2);
    InputStep(s, u, input, 3);
    assert input[..0] == [] && input[..3] == input;
  }

  lemma ClosingCallbacks(s: Snapshot, u: Setup, c: string, n: string)
    ensures AfterInput(s, u, [End(c), End(n)]) == AfterEnd(AfterEnd(s, u), u)
  {
    var input := [End(c), End(n)];
    InputStep(s, u, input, 1);
    InputStep(s, u, input, 2);
    assert input[..0] == [] && input[..2] == input;
  }

  /** Input in two pieces is the first piece and then the second. */
  lemma {:induction false} InputAppend(s: Snapshot, u: Setup, p: seq<XmlEvent>, q: seq<XmlEvent>)
    ensures AfterInput(s, u, p + q) == AfterInput(AfterInput(s, u, p), u, q)
    decreases |q|
  {
    if q == [] {
      assert p + q == p;
    } else {
      var q' := q[..|q| - 1];
      InputAppend(s, u, p, q');
      assert (p + q)[..|p + q| - 1] == p + q';
    }
  }

  /** The input up to k is the input up to k - 1 and then callback k - 1. */
  lemma InputStep(s: Snapshot, u: Setup, input: seq<XmlEvent>, k: nat)
    requires 0 < k <= |input|
    ensures AfterInput(s, u, input[..k]) == AfterXml(AfterInput(s, u, input[..k - 1]), u, input[k - 1])
  {
    assert input[..k][..k - 1] == input[..k - 1];
  }

  /** The node table through the same five callbacks: entry 2 ends up as the
      stanza with its one child and that child's text. */
  lemma OneChildTable(t0: Dict<int, Element>, e1: Element, e2: Element, t: string)
    requires e1.subs == [] && e2.data == ""
    ensures var t1 := Put(AttachChild(t0, 2, e1), 2, e1);
      var t2 := Put(AttachChild(t1, 3, e2), 3, e2);
      var t3 := Put(t2, 3, e2.(data := t));
      var t4 := RefreshChild(t3, 3);
      var t5 := RefreshChild(t4, 2);
      && Get(t2, 3) == Some(e2)
      && Get(t5, 2) == Some(e1.(subs := [e2.(data := t)]))
  {
    var t1 := Put(AttachChild(t0, 2, e1), 2, e1);
    PutGet(AttachChild(t0, 2, e1), 2, e1);
    var e1' := e1.(subs := [e2]);
    var a2 := Put(t1, 2, e1');
    assert e1.subs + [e2] == [e2];
    assert AttachChild(t1, 3, e2) == a2;
    PutGet(t1, 2, e1');
    var t2 := Put(a2, 3, e2);
    PutOther(a2, 3, e2, 2);
    PutGet(a2, 3, e2);
    var t3 := Put(t2, 3, e2.(data := t));
    PutGet(t2, 3, e2.(data := t));
    PutOther(t2, 3, e2.(data := t), 2);
    var t4 := RefreshChild(t3, 3);
    var st := e1.(subs := [e2.(data := t)]);
    assert Get(t3, 2) == Some(e1');
    assert e1'.subs[..|e1'.subs| - 1] + [e2.(data := t)] == [e2.(data := t)];
    assert t4 == Put(t3, 2, st);
    PutGet(t3, 2, st);
    var t5 := RefreshChild(t4, 2);
    if t5 != t4 {
      var p := Get(t4, 1).value;
      PutOther(t4, 1, p.(subs := p.subs[..|p.subs| - 1] + [Get(t4, 2).value]), 2);
    }
  }

  /** Raising an event keeps the wait registrations in agreement. */
  lemma EventKeeps(s: Snapshot, u: Setup, name: string, p: Value, next: nat)
    requires WaitsIn(s, u, next)
    ensures WaitsIn(AfterEvent(s, u, name, p), u, next)
  {
    EnqueueKeepsWait(u.until, s.counts, s.payloads, next, name, p);
  }

  lemma {:induction false} EventsKeep(s: Snapshot, u: Setup, raised: seq<(string, Value)>, next: nat)
    requires WaitsIn(s, u, next)
    ensures WaitsIn(AfterEvents(s, u, raised), u, next)
    decreases |raised|
  {
    if raised != [] {
      EventsKeep(s, u, raised[..|raised| - 1], next);
      EventKeeps(AfterEvents(s, u, raised[..|raised| - 1]), u, raised[|raised| - 1].0, raised[|raised| - 1].1, next);
    }
  }

  lemma ReconnectKeeps(s: Snapshot, u: Setup, next: nat)
    requires WaitsIn(s, u, next)
    ensures WaitsIn(AfterReconnect(s, u), u, next)
  {
    if !u.isServer {
      var r := s.(disconnected := false, sentDisconnect := false, depth := 0, table := [], reset := true,
                  outbox := s.outbox + [u.streamStart]);
      EventKeeps(r, u, "reconnect", Null, next);
    }
  }

  lemma StreamEndKeeps(s: Snapshot, u: Setup, next: nat)
    requires WaitsIn(s, u, next)
    ensures WaitsIn(AfterStreamEnd(s, u), u, next)
  {
    var c := s.(outbox := s.outbox + (if s.sentDisconnect then [] else [u.streamEnd]),
                disconnected := true, sentDisconnect := true);
    if u.reconnect {
      ReconnectKeeps(c, u, next);
    }
    EventKeeps(if s.disconnected then s else AfterClose(s, u), u, "end_stream", Null, next);
  }

  /** Every parser callback keeps the wait registrations in agreement. */
  lemma XmlKeeps(s: Snapshot, u: Setup, x: XmlEvent, next: nat)
    requires WaitsIn(s, u, next)
    ensures WaitsIn(AfterXml(s, u, x), u, next)
  {
    if x.End? && Closed(s).depth == 0 {
      StreamEndKeeps(Closed(s), u, next);
    }
  }

  lemma {:induction false} InputKeeps(s: Snapshot, u: Setup, input: seq<XmlEvent>, next: nat)
    requires WaitsIn(s, u, next)
    ensures WaitsIn(AfterInput(s, u, input), u, next)
    decreases |input|
  {
    if input != [] {
      InputKeeps(s, u, input[..|input| - 1], next);
      XmlKeeps(AfterInput(s, u, input[..|input| - 1]), u, input[|input| - 1], next);
    }
  }

  lemma PollKeeps(s: Snapshot, u: Setup, step: PollStep, next: nat)
    requires WaitsIn(s, u, next)
    ensures WaitsIn(AfterPoll(s, u, step), u, next)
  {
    match step
    case Received(input) => InputKeeps(s, u, input, next);
    case Raised(raised) => EventsKeep(s, u, raised, next);
    case Lost => if u.reconnect { ReconnectKeeps(s, u, next); }
  }

  lemma PutKeeps(table: Dict<int, Element>, d: int, e: Element, k: int)
    requires HasKey(table, k)
    ensures HasKey(Put(table, d, e), k)
  {
    if k == d { PutGet(table, d, e); } else { PutOther(table, d, e, k); }
  }

  lemma AttachKeeps(table: Dict<int, Element>, d: int, e: Element, k: int)
    requires HasKey(table, k)
    ensures HasKey(AttachChild(table, d, e), k)
  {
    if d > 1 && HasKey(table, d - 1) {
      var p := Get(table, d - 1).value;
      PutKeeps(table, d - 1, p.(subs := p.subs + [e]), k);
    }
  }

  /** Refreshing a parent leaves every entry other than the parent as it was. */
  lemma RefreshKeeps(table: Dict<int, Element>, d: int, k: int)
    ensures HasKey(table, k) ==> HasKey(RefreshChild(table, d), k)
    ensures k != d - 1 ==> Get(RefreshChild(table, d), k) == Get(table, k)
  {
    if d > 1 && HasKey(table, d) && HasKey(table, d - 1) && Get(table, d - 1).value.subs != [] {
      var p := Get(table, d - 1).value;
      var p' := p.(subs := p.subs[..|p.subs| - 1] + [Get(table, d).value]);
      if HasKey(table, k) { PutKeeps(table, d - 1, p', k); }
      if k != d - 1 { PutOther(table, d - 1, p', k); }
    }
  }

  /** One more key of the loop in `event`: it joins the hits when it waits
      for the name. */
  lemma WaitingStep(until: map<nat, set<string>>, done: set<nat>, k: nat, name: string)
    requires k in until && k !in done
    ensures Waiting(until, done + {k}, name) ==
      if name in until[k] then Waiting(until, done, name) + {k} else Waiting(until, done, name)
  {
  }

  lemma EnqueueOne(payloads: map<nat, Queue>, w: set<nat>, k: nat, name: string, p: Value)
    requires k !in w
    ensures var q := Enqueue(payloads, w, name, p);
      Enqueue(payloads, w + {k}, name, p) == q[k := (if k in q then q[k] else []) + [(name, p)]]
  {
    var q := Enqueue(payloads, w, name, p);
    var a, b := Enqueue(payloads, w + {k}, name, p), q[k := (if k in q then q[k] else []) + [(name, p)]];
    assert a.Keys == b.Keys;
    assert forall j :: j in a ==> a[j] == b[j];
  }

  lemma BumpOne(counts: map<nat, nat>, w: set<nat>, k: nat)
    requires k !in w
    ensures var c := Bump(counts, w);
      Bump(counts, w + {k}) == c[k := (if k in c then c[k] else 0) + 1]
  {
    var c := Bump(counts, w);
    var a, b := Bump(counts, w + {k}), c[k := (if k in c then c[k] else 0) + 1];
    assert a.Keys == b.Keys;
    assert forall j :: j in a ==> a[j] == b[j];
  }

  /** `event` keeps the wait registrations consistent. */
  /** `Enqueue` and `Bump` at one key: a key in hit gets the pair appended
      to its queue (empty if none) and its count raised by one (from 0 if
      unset); any other key keeps its queue and its count, or their absence. */
  lemma EnqueueBumpAt(payloads: map<nat, Queue>, counts: map<nat, nat>, hit: set<nat>, name: string, p: Value, k: nat)
    ensures var q, c := Enqueue(payloads, hit, name, p), Bump(counts, hit);
      && (k in hit ==>
            && k in q && q[k] == (if k in payloads then payloads[k] else []) + [(name, p)]
            && k in c && c[k] == (if k in counts then counts[k] else 0) + 1)
      && (k !in hit ==>
            && (k in q <==> k in payloads) && (k in payloads ==> q[k] == payloads[k])
            && (k in c <==> k in counts) && (k in counts ==> c[k] == counts[k]))
  {
  }

  lemma EnqueueKeepsWait(until: map<nat, set<string>>, counts: map<nat, nat>, payloads: map<nat, Queue>,
                         next: nat, name: string, p: Value)
    requires WaitValid(until, counts, payloads, next)
    ensures var hit := Waiting(until, until.Keys, name);
      WaitValid(until, Bump(counts, hit), Enqueue(payloads, hit, name, p), next)
  {
    var hit := Waiting(until, until.Keys, name);
    var c, q := Bump(counts, hit), Enqueue(payloads, hit, name, p);
    forall k: nat ensures WaitOk(until, c, q, next, k) {
      assert WaitOk(until, counts, payloads, next, k);
      EnqueueBumpAt(payloads, counts, hit, name, p, k);
      if k in q {
        forall j | 0 <= j < |q[k]| ensures q[k][j].0 in until[k] {
          if k !in hit || j < |q[k]| - 1 {
            assert k in payloads && q[k][j] == payloads[k][j];
          }
        }
      }
    }
  }

  /** A new registration under the next free key, with a count of 0, keeps
      the registrations in agreement; the key had no registration and no
      queue. */
  lemma RegisterKeepsWait(until: map<nat, set<string>>, counts: map<nat, nat>, payloads: map<nat, Queue>,
                          next: nat, events: set<string>)
    requires WaitValid(until, counts, payloads, next)
    ensures next !in until && next !in payloads
    ensures WaitValid(until[next := events], counts[next := 0], payloads, next + 1)
  {
    assert WaitOk(until, counts, payloads, next, next);
    var u, c, n := until[next := events], counts[next := 0], next + 1;
    forall k: nat ensures WaitOk(u, c, payloads, n, k) {
      assert WaitOk(until, counts, payloads, next, k);
    }
  }

  // ---------------------------------------------------------------------------
  // What dispatch and events promise

  /** A stanza carries one id, and distinct numbers render to distinct ids,
      so at most one registration key fits it. */
  lemma IdMatchUnique(k: nat, k': nat, stanza: Element)
    requires IdMatch(k, stanza) && IdMatch(k', stanza)
    ensures k == k'
  {
    NatToStringInjective(k, k');
  }

  /** At most one id handler fires per stanza: once the fitting handler is
      removed, no handler left fits the same stanza, and every other
      registration stays in its place. */
  lemma {:induction false} IdHandlerFiresOnce(ids: Dict<nat, Handler>, stanza: Element)
    requires DistinctKeys(ids) && FirstIdIndex(ids, stanza) >= 0
    ensures var i := FirstIdIndex(ids, stanza);
      var rest := Remove(ids, ids[i].0);
      && rest == ids[..i] + ids[i + 1..]
      && !HasKey(rest, ids[i].0)
      && FirstIdIndex(rest, stanza) == -1
  {
    var i := FirstIdIndex(ids, stanza);
    var k := ids[i].0;
    RemoveDistinct(ids, k);
    RemoveGet(ids, k);
    IndexOfAt(ids, i);
    OnlyOneFits(ids, i, stanza);
    var rest := Remove(ids, k);
    forall j | 0 <= j < |rest| ensures !IdMatch(rest[j].0, stanza) {
      if j < i {
        assert rest[j] == ids[..i][j];
      } else {
        assert rest[j] == ids[i + 1..][j - i];
      }
    }
  }

  lemma IndexOfAt(ids: Dict<nat, Handler>, i: nat)
    requires DistinctKeys(ids) && i < |ids|
    ensures IndexOf(ids, ids[i].0) == i
  {
    var j := IndexOf(ids, ids[i].0);
    assert j >= 0;
    assert !(j < i) && !(i < j);
  }

  /** With distinct keys, no handler but the fitting one fits the stanza. */
  lemma OnlyOneFits(ids: Dict<nat, Handler>, i: nat, stanza: Element)
    requires DistinctKeys(ids) && i < |ids| && IdMatch(ids[i].0, stanza)
    ensures forall j :: 0 <= j < |ids| && j != i ==> !IdMatch(ids[j].0, stanza)
  {
    forall j | 0 <= j < |ids| && j != i && IdMatch(ids[j].0, stanza) ensures false {
      IdMatchUnique(ids[j].0, ids[i].0, stanza);
    }
  }

  /** The path handlers called for a stanza are exactly the registered ones
      whose path matches it. */
  lemma {:induction false} PathCallsExact(hs: seq<PathHandler>, stanza: Element, c: Call)
    ensures c in PathCalls(hs, stanza) <==>
      exists j :: 0 <= j < |hs| && PathMatches(hs[j].path, stanza) && c == StanzaCall(hs[j].handler, stanza)
  {
    if hs != [] {
      var n := |hs| - 1;
      PathCallsExact(hs[..n], stanza, c);
      if c in PathCalls(hs[..n], stanza) {
        var j :| 0 <= j < n && PathMatches(hs[..n][j].path, stanza) && c == StanzaCall(hs[..n][j].handler, stanza);
        assert hs[j] == hs[..n][j];
      }
      if exists j :: 0 <= j < |hs| && PathMatches(hs[j].path, stanza) && c == StanzaCall(hs[j].handler, stanza) {
        var j :| 0 <= j < |hs| && PathMatches(hs[j].path, stanza) && c == StanzaCall(hs[j].handler, stanza);
        if j < n {
          assert hs[..n][j] == hs[j];
        }
      }
    }
  }

  /** Likewise for the name/namespace handlers. */
  lemma {:induction false} NsCallsExact(hs: seq<NsHandler>, stanza: Element, defaultNs: string, c: Call)
    ensures c in NsCalls(hs, stanza, defaultNs) <==>
      exists j :: 0 <= j < |hs| && NsMatches(hs[j], stanza, defaultNs) && c == StanzaCall(hs[j].handler, stanza)
  {
    if hs != [] {
      var n := |hs| - 1;
      NsCallsExact(hs[..n], stanza, defaultNs, c);
      var last := if NsMatches(hs[n], stanza, defaultNs) then [StanzaCall(hs[n].handler, stanza)] else [];
      assert NsCalls(hs, stanza, defaultNs) == NsCalls(hs[..n], stanza, defaultNs) + last;
      if c in NsCalls(hs[..n], stanza, defaultNs) {
        var j :| 0 <= j < n && NsMatches(hs[..n][j], stanza, defaultNs) && c == StanzaCall(hs[..n][j].handler, stanza);
        assert hs[j] == hs[..n][j];
      } else if c in last {
        assert NsMatches(hs[n], stanza, defaultNs) && c == StanzaCall(hs[n].handler, stanza);
      }
      if exists j :: 0 <= j < |hs| && NsMatches(hs[j], stanza, defaultNs) && c == StanzaCall(hs[j].handler, stanza) {
        var j :| 0 <= j < |hs| && NsMatches(hs[j], stanza, defaultNs) && c == StanzaCall(hs[j].handler, stanza);
        if j < n {
          assert hs[..n][j] == hs[j];
        }
      }
    }
  }

  /** `event` calls exactly the handlers registered under the event name. */
  lemma {:induction false} EventCallsExact(hs: seq<EventHandler>, name: string, p: Value, c: Call)
    ensures c in EventCalls(hs, name, p) <==>
      exists j :: 0 <= j < |hs| && hs[j].name == name && c == EventCall(hs[j].handler, p)
  {
    if hs != [] {
      var n := |hs| - 1;
      EventCallsExact(hs[..n], name, p, c);
      if c in EventCalls(hs[..n], name, p) {
        var j :| 0 <= j < n && hs[..n][j].name == name && c == EventCall(hs[..n][j].handler, p);
        assert hs[j] == hs[..n][j];
      }
      if exists j :: 0 <= j < |hs| && hs[j].name == name && c == EventCall(hs[j].handler, p) {
        var j :| 0 <= j < |hs| && hs[j].name == name && c == EventCall(hs[j].handler, p);
        if j < n {
          assert hs[..n][j] == hs[j];
        }
      }
    }
  }

  /** Registration order is call order: the calls for two runs of handlers
      are the calls of the first run followed by those of the second. */
  lemma {:induction false} EventCallsAppend(a: seq<EventHandler>, b: seq<EventHandler>, name: string, p: Value)
    ensures EventCalls(a + b, name, p) == EventCalls(a, name, p) + EventCalls(b, name, p)
  {
    if b != [] {
      var n := |b| - 1;
      assert (a + b)[..|a + b| - 1] == a + b[..n];
      EventCallsAppend(a, b[..n], name, p);
    } else {
      assert a + b == a;
    }
  }

  /** Prefix bindings are never removed, and a prefix that no attribute
      binds keeps its namespace. */
  lemma {:induction false} DeclareKeeps(nsMap: map<string, string>, attrs: Dict<string, string>, x: string)
    ensures x in nsMap ==> x in Declare(nsMap, attrs)
    ensures (forall i :: 0 <= i < |attrs| && ':' in attrs[i].0 ==> SecondPiece(attrs[i].0, ':') != x) ==>
      (x in Declare(nsMap, attrs) <==> x in nsMap) && (x in nsMap ==> Declare(nsMap, attrs)[x] == nsMap[x])
    decreases |attrs|
  {
    if attrs != [] {
      var n := |attrs| - 1;
      DeclareKeeps(nsMap, attrs[..n], x);
      if forall i :: 0 <= i < |attrs| && ':' in attrs[i].0 ==> SecondPiece(attrs[i].0, ':') != x {
        forall i | 0 <= i < n && ':' in attrs[..n][i].0 ensures SecondPiece(attrs[..n][i].0, ':') != x {
          assert attrs[..n][i] == attrs[i];
        }
      }
    }
  }

  /** The last attribute binding a prefix decides its namespace. */
  lemma {:induction false} DeclareLast(nsMap: map<string, string>, attrs: Dict<string, string>, i: nat)
    requires i < |attrs| && ':' in attrs[i].0
    requires forall j :: i < j < |attrs| && ':' in attrs[j].0 ==> SecondPiece(attrs[j].0, ':') != SecondPiece(attrs[i].0, ':')
    ensures var x := SecondPiece(attrs[i].0, ':');
      x in Declare(nsMap, attrs) && Declare(nsMap, attrs)[x] == attrs[i].1
    decreases |attrs|
  {
    var n := |attrs| - 1;
    if i < n {
      assert attrs[..n][i] == attrs[i];
      forall j | i < j < n && ':' in attrs[..n][j].0
        ensures SecondPiece(attrs[..n][j].0, ':') != SecondPiece(attrs[..n][i].0, ':')
      {
        assert attrs[..n][j] == attrs[j];
      }
      DeclareLast(nsMap, attrs[..n], i);
    }
  }
}
