/** The client `XMPPHP_XMPP`: the handlers that drive stream negotiation
    (STARTTLS, SASL, resource binding, session), the ones that turn incoming
    messages, presences, roster pushes and vCards into events and roster
    updates, and the calls that send messages, presences and requests. The
    PHP class extends the stream engine; here the client holds its engine and
    its roster. */
module Xmpp {
  import opened Util
  import opened Dict
  import opened XmlObj
  import opened XPath
  import opened XmlStream
  import opened Roster
  import opened Sasl
  import opened Stanzas

  /** The paths the constructor registers, each a single `{ns}name` step
      (the roster path is `RosterPath`, which compiles to one step as well). */
  const StreamsNs: string := "http://etherx.jabber.org/streams"
  const TlsNs: string := "urn:ietf:params:xml:ns:xmpp-tls"
  const ClientNs: string := "jabber:client"

  const FeaturesSeg: Seg := Seg(StreamsNs, "features")
  const SuccessSeg: Seg := Seg(SaslNs, "success")
  const FailureSeg: Seg := Seg(SaslNs, "failure")
  const ProceedSeg: Seg := Seg(TlsNs, "proceed")
  const MessageSeg: Seg := Seg(ClientNs, "message")
  const PresenceSeg: Seg := Seg(ClientNs, "presence")
  const ChallengeSeg: Seg := Seg(SaslNs, "challenge")

  /** A handler method of the client itself (the engine's null object). */
  function Own(fn: string): Handler {
    Handler(fn, "")
  }

  /** The path handlers the constructor registers, in order, as compiled:
      first those of stream negotiation, then those of incoming stanzas. */
  function Registrations(): seq<PathHandler> {
    NegotiationHandlers() + StanzaHandlers()
  }

  function NegotiationHandlers(): seq<PathHandler> {
    [PathHandler([FeaturesSeg], Own("featuresHandler")),
     PathHandler([SuccessSeg], Own("saslSuccessHandler")),
     PathHandler([FailureSeg], Own("saslFailureHandler")),
     PathHandler([ProceedSeg], Own("tlsProceedHandler"))]
  }

  function StanzaHandlers(): seq<PathHandler> {
    [PathHandler([MessageSeg], Own("messageHandler")),
     PathHandler([PresenceSeg], Own("presenceHandler")),
     PathHandler([RosterStep], Own("rosterIqHandler")),
     PathHandler([ChallengeSeg], Own("saslChallengeHandler"))]
  }

  /** The namespaces of the registered paths hold no closing brace. */
  lemma StreamsNsClosed() ensures NoChar(StreamsNs, '}') {}
  lemma SaslNsClosed() ensures NoChar(SaslNs, '}') {}
  lemma TlsNsClosed() ensures NoChar(TlsNs, '}') {}
  lemma ClientNsClosed() ensures NoChar(ClientNs, '}') {}

  /** A one-step path spelled out compiles back to that step. */
  lemma CompileSpell(g: Seg)
    requires WellFormed(g)
    ensures Compile(Spell(g)) == [g]
  {
    CompileRender([g]);
  }

  // The stanzas below are spelled with constants for their fixed parts.

  const StreamHead: string := "<stream:stream to=\""
  const StreamTail: string := "\" xmlns:stream=\"http://etherx.jabber.org/streams\" xmlns=\"jabber:client\" version=\"1.0\">"

  function StreamStart(server: string): string {
    StreamHead + server + StreamTail
  }

  const StreamEnd: string := "</stream:stream>"

  const StartTlsRequest: string := "<starttls xmlns='urn:ietf:params:xml:ns:xmpp-tls'><required /></starttls>"

  const BindHead: string := "<iq xmlns=\"jabber:client\" type=\"set\" id=\""
  const BindMiddle: string := "\"><bind xmlns=\"urn:ietf:params:xml:ns:xmpp-bind\"><resource>"
  const BindTail: string := "</resource></bind></iq>"

  function BindRequest(id: nat, resource: string): string {
    BindHead + NatToString(id) + BindMiddle + resource + BindTail
  }

  const SessionHead: string := "<iq xmlns='jabber:client' type='set' id='"
  const SessionTail: string := "'><session xmlns='urn:ietf:params:xml:ns:xmpp-session' /></iq>"

  function SessionRequest(id: nat): string {
    SessionHead + NatToString(id) + SessionTail
  }

  const RosterHead: string := "<iq xmlns='jabber:client' type='get' id='"
  const RosterTail: string := "'><query xmlns='jabber:iq:roster' /></iq>"

  function RosterRequest(id: nat): string {
    RosterHead + NatToString(id) + RosterTail
  }

  const VcardHead: string := "<iq type='get' id='"
  const VcardTo: string := "' to='"
  const VcardTail: string := "'><vCard xmlns='vcard-temp' /></iq>"

  /** `getVCard`: addressed to the jid when one is given. */
  function VcardRequest(id: nat, jid: string): string {
    if Falsy(jid) then VcardHead + NatToString(id) + VcardTail
    else VcardHead + NatToString(id) + VcardTo + jid + VcardTail
  }

  /** `$xml->sub('bind')->sub('jid')->data`, a missing element read as "". */
  function BoundJid(xml: Element): string {
    match Sub(xml, "bind", "")
    case Some(b) => SubData(b, "jid")
    case None => ""
  }

  /** What `event(name, p)` does to the engine: every handler of the name is
      called, and every wait registration for it records the pair. */
  twostate predicate EventRaised(s: Stream, name: string, p: Value)
    reads s
  {
    && s.trace == old(s.trace) + EventCalls(s.eventhandlers, name, p)
    && var hit := Waiting(s.until, s.until.Keys, name);
       s.untilPayload == Enqueue(old(s.untilPayload), hit, name, p) && s.untilCount == Bump(old(s.untilCount), hit)
  }

  /** The group loop of `rosterIqHandler`. */
  method CollectGroups(subs: seq<Element>) returns (groups: seq<string>)
    ensures groups == Groups(subs)
  {
    groups := [];
    var i := 0;
    while i < |subs|
      invariant 0 <= i <= |subs|
      invariant groups == Groups(subs[..i])
    {
      assert subs[..i + 1][..i] == subs[..i];
      if subs[i].name == "group" {
        groups := groups + [subs[i].data];
      }
      i := i + 1;
    }
    assert subs[..i] == subs;
  }

  /** The item loop of `rosterIqHandler`: one contact per `item` child, and
      the status turns to "error" at any other child. */
  method CollectItems(subs: seq<Element>) returns (contacts: seq<Contact>, status: string)
    ensures contacts == Items(subs)
    ensures status == (if AllItems(subs) then "result" else "error")
  {
    status := "result";
    contacts := [];
    var i := 0;
    while i < |subs|
      invariant 0 <= i <= |subs|
      invariant contacts == Items(subs[..i])
      invariant status == (if AllItems(subs[..i]) then "result" else "error")
    {
      var item := subs[i];
      assert subs[..i + 1][..i] == subs[..i];
      AllItemsSnoc(subs, i);
      if item.name == "item" {
        var groups := CollectGroups(item.subs);
        contacts := contacts + [Contact(Attr(item, "jid"), Attr(item, "subscription"), Attr(item, "name"), groups)];
      } else {
        status := "error";
      }
      i := i + 1;
    }
    assert subs[..i] == subs;
  }

  /** The children up to and including i are all items exactly when those
      before i are and child i is one. */
  lemma AllItemsSnoc(subs: seq<Element>, i: nat)
    requires i < |subs|
    ensures AllItems(subs[..i + 1]) <==> AllItems(subs[..i]) && subs[i].name == "item"
  {
    var a, b := subs[..i], subs[..i + 1];
    assert b[i] == subs[i];
    if AllItems(a) && subs[i].name == "item" {
      forall j | 0 <= j < i + 1 ensures b[j].name == "item" {
        if j < i {
          assert b[j] == a[j];
        }
      }
    }
    if AllItems(b) {
      forall j | 0 <= j < i ensures a[j].name == "item" {
        assert a[j] == b[j];
      }
    }
  }

  /** The outer loop of `vcardGetHandler`: each child under its name, as its
      children's texts when it has children, else as its own text. */
  method CollectVcard(subs: seq<Element>) returns (fields: Dict<string, Value>)
    ensures fields == Assign(VcardPairs(subs))
  {
    fields := [];
    var i := 0;
    while i < |subs|
      invariant 0 <= i <= |subs|
      invariant fields == Assign(VcardPairs(subs)[..i])
    {
      var sub := subs[i];
      var entry: Value;
      if sub.subs != [] {
        var children := CollectChildren(sub.subs);
        entry := Arr(children);
      } else {
        entry := Str(sub.data);
      }
      assert VcardPairs(subs)[..i + 1][..i] == VcardPairs(subs)[..i];
      fields := Put(fields, sub.name, entry);
      i := i + 1;
    }
    assert VcardPairs(subs)[..i] == VcardPairs(subs);
  }

  /** The inner loop of `vcardGetHandler`: each child's text under its name. */
  method CollectChildren(subs: seq<Element>) returns (fields: Dict<string, Value>)
    ensures fields == Assign(ChildPairs(subs))
  {
    fields := [];
    var i := 0;
    while i < |subs|
      invariant 0 <= i <= |subs|
      invariant fields == Assign(ChildPairs(subs)[..i])
    {
      assert ChildPairs(subs)[..i + 1][..i] == ChildPairs(subs)[..i];
      fields := Put(fields, subs[i].name, Str(subs[i].data));
      i := i + 1;
    }
    assert ChildPairs(subs)[..i] == ChildPairs(subs);
  }

  /** The engine as the client's constructor sets it up: a client stream
      with the client's opening and closing tags and the eight path handlers
      registered in order. */
  method ClientStream(server: string) returns (s: Stream)
    ensures fresh(s) && s.Valid() && !s.isServer
    ensures s.xpathhandlers == Registrations()
    ensures s.streamStart == StreamStart(server) && s.streamEnd == StreamEnd
    ensures s.defaultNs == ""
    ensures s.nshandlers == [] && s.idhandlers == [] && s.eventhandlers == [] && s.lastid == 0
    ensures s.outbox == [] && s.trace == [] && s.xmlDepth == 0
  {
    s := new Stream(false);
    s.streamStart := StreamStart(server);
    s.streamEnd := StreamEnd;
    RegisterNegotiation(s);
    RegisterStanzas(s);
  }

  /** The first four `addXPathHandler` calls of the constructor. */
  method RegisterNegotiation(s: Stream)
    modifies s`xpathhandlers
    ensures s.xpathhandlers == old(s.xpathhandlers) + NegotiationHandlers()
  {
    StreamsNsClosed();
    SaslNsClosed();
    TlsNsClosed();
    Register(s, FeaturesSeg, "featuresHandler");
    Register(s, SuccessSeg, "saslSuccessHandler");
    Register(s, FailureSeg, "saslFailureHandler");
    Register(s, ProceedSeg, "tlsProceedHandler");
  }

  /** The last four `addXPathHandler` calls of the constructor. */
  method RegisterStanzas(s: Stream)
    modifies s`xpathhandlers
    ensures s.xpathhandlers == old(s.xpathhandlers) + StanzaHandlers()
  {
    ClientNsClosed();
    SaslNsClosed();
    Register(s, MessageSeg, "messageHandler");
    Register(s, PresenceSeg, "presenceHandler");
    RegisterRoster(s);
    Register(s, ChallengeSeg, "saslChallengeHandler");
  }

  /** `addXPathHandler('iq/{jabber:iq:roster}query', 'rosterIqHandler')`. */
  method RegisterRoster(s: Stream)
    modifies s`xpathhandlers
    ensures s.xpathhandlers == old(s.xpathhandlers) + [PathHandler([RosterStep], Own("rosterIqHandler"))]
  {
    s.AddXPathHandler(RosterPath, Own("rosterIqHandler"));
    RosterPathOneSegment();
  }

  /** `addXPathHandler('{ns}name', fn)` for one of the client's own handlers. */
  method Register(s: Stream, g: Seg, fn: string)
    requires WellFormed(g)
    modifies s`xpathhandlers
    ensures s.xpathhandlers == old(s.xpathhandlers) + [PathHandler([g], Own(fn))]
  {
    s.AddXPathHandler(Spell(g), Own(fn));
    CompileSpell(g);
  }

  class Client {
    const stream: Stream
    const roster: Roster
    /** MD5 and base64 as the client receives them from PHP. */
    const crypto: Crypto
    const host: string
    const server: string
    const password: string
    const resource: string
    const basejid: string
    var user: string
    var fulljid: string
    var jid: string
    var authed: bool
    var sessionStarted: bool
    var autoSubscribe: bool
    var useEncryption: bool
    var trackPresence: bool

    /** The engine and the roster keep their invariants; the engine is a client's. */
    ghost predicate Valid()
      reads stream, roster
    {
      stream.Valid() && roster.Valid() && !stream.isServer
    }

    /** The constructor: the server defaults to the host, the stream tags are
        the client's, and the eight path handlers are registered. It sets
        `default_ns`, a field the engine never reads, so the engine's default
        namespace stays null. */
    constructor (host: string, user: string, password: string, resource: string, server: string, crypto: Crypto)
      ensures Valid() && fresh(stream) && fresh(roster)
      ensures this.host == host && this.user == user && this.password == password && this.resource == resource
      ensures this.server == (if Falsy(server) then host else server)
      ensures basejid == user + "@" + host && fulljid == "" && jid == ""
      ensures !authed && !sessionStarted && !autoSubscribe && useEncryption && trackPresence
      ensures roster.rosterArray == []
      ensures stream.xpathhandlers == Registrations()
      ensures stream.streamStart == StreamStart(this.server) && stream.streamEnd == StreamEnd
      ensures stream.defaultNs == ""
      ensures stream.nshandlers == [] && stream.idhandlers == [] && stream.eventhandlers == [] && stream.lastid == 0
      ensures stream.outbox == [] && stream.trace == [] && stream.xmlDepth == 0
    {
      var srv := if Falsy(server) then host else server;
      var s := ClientStream(srv);
      var r := new Roster([]);
      stream := s;
      roster := r;
      this.crypto := crypto;
      this.host := host;
      this.server := srv;
      this.password := password;
      this.resource := resource;
      this.user := user;
      basejid := user + "@" + host;
      fulljid, jid := "", "";
      authed, sessionStarted, autoSubscribe, useEncryption, trackPresence := false, false, false, true, true;
    }

    // -------------------------------------------------------------------------
    // Sending

    /** `message`. */
    method Message(to: string, body: string, msgType: string, subject: string, payload: string)
      modifies stream`outbox
      ensures stream.outbox == old(stream.outbox) + [MessageStanza(fulljid, to, body, msgType, subject, payload)]
    {
      stream.Send(MessageStanza(fulljid, to, body, msgType, subject, payload));
    }

    /** `presence`. */
    method Presence(status: string, show: string, to: string, presenceType: string, priority: int)
      modifies stream`outbox
      ensures stream.outbox == old(stream.outbox) + [PresenceStanza(status, show, to, presenceType, priority)]
    {
      stream.Send(PresenceStanza(status, show, to, presenceType, priority));
    }

    /** `getRoster`. */
    method GetRoster()
      modifies stream`lastid, stream`outbox
      ensures stream.lastid == old(stream.lastid) + 1
      ensures stream.outbox == old(stream.outbox) + [RosterRequest(stream.lastid)]
    {
      var id := stream.GetId();
      stream.Send(RosterRequest(id));
    }

    /** `getVCard`: a fresh id, the vCard handler registered under it, and a
        request carrying that same id. */
    method GetVCard(jid: string)
      requires Valid()
      modifies stream`lastid, stream`idhandlers, stream`outbox
      ensures Valid()
      ensures stream.lastid == old(stream.lastid) + 1
      ensures stream.idhandlers == Put(old(stream.idhandlers), stream.lastid, Own("vcardGetHandler"))
      ensures stream.outbox == old(stream.outbox) + [VcardRequest(stream.lastid, jid)]
    {
      var id := stream.GetId();
      stream.AddIdHandler(id, Own("vcardGetHandler"));
      stream.Send(VcardRequest(id, jid));
    }

    // -------------------------------------------------------------------------
    // Negotiation

    /** `featuresHandler`: STARTTLS when offered and wanted; else, once
        authenticated and offered binding, a bind request whose id is the
        one the bind handler is registered under; else authentication with
        the chosen mechanism (nothing when no offered mechanism is supported). */
    method FeaturesHandler(xml: Element)
      requires Valid()
      modifies stream`outbox, stream`lastid, stream`idhandlers
      ensures Valid()
      ensures HasSub(xml, "starttls", "") && useEncryption ==>
        && stream.outbox == old(stream.outbox) + [StartTlsRequest]
        && stream.lastid == old(stream.lastid) && stream.idhandlers == old(stream.idhandlers)
      ensures !(HasSub(xml, "starttls", "") && useEncryption) && HasSub(xml, "bind", "") && authed ==>
        && stream.lastid == old(stream.lastid) + 1
        && stream.idhandlers == Put(old(stream.idhandlers), stream.lastid, Own("resourceBindHandler"))
        && stream.outbox == old(stream.outbox) + [BindRequest(stream.lastid, resource)]
      ensures !(HasSub(xml, "starttls", "") && useEncryption) && !(HasSub(xml, "bind", "") && authed) ==>
        && stream.lastid == old(stream.lastid) && stream.idhandlers == old(stream.idhandlers)
        && stream.outbox == old(stream.outbox) +
             match AuthStanza(ChooseMechanism(password, xml), user, password, crypto)
             case Some(s) => [s]
             case None => []
    {
      if HasSub(xml, "starttls", "") && useEncryption {
        stream.Send(StartTlsRequest);
      } else if HasSub(xml, "bind", "") && authed {
        RequestBind();
      } else {
        var mechanism := PickMechanism(password, xml);
        var auth := AuthStanza(mechanism, user, password, crypto);
        if auth.Some? {
          stream.Send(auth.value);
        }
      }
    }

    /** The binding branch of `featuresHandler`: the bind handler goes under
        a fresh id and the request carries that same id. */
    method RequestBind()
      requires Valid()
      modifies stream`lastid, stream`idhandlers, stream`outbox
      ensures Valid()
      ensures stream.lastid == old(stream.lastid) + 1
      ensures stream.idhandlers == Put(old(stream.idhandlers), stream.lastid, Own("resourceBindHandler"))
      ensures stream.outbox == old(stream.outbox) + [BindRequest(stream.lastid, resource)]
    {
      var id := stream.GetId();
      stream.AddIdHandler(id, Own("resourceBindHandler"));
      stream.Send(BindRequest(id, resource));
    }

    /** `saslSuccessHandler`: authenticated, and the stream starts over. */
    method SaslSuccessHandler()
      requires Valid()
      modifies this`authed, stream`xmlDepth, stream`xmlobj, stream`outbox, stream`beenReset
      ensures Valid() && authed
      ensures stream.xmlDepth == 0 && stream.xmlobj == [] && stream.beenReset
      ensures stream.outbox == old(stream.outbox) + [stream.streamStart]
    {
      authed := true;
      stream.Reset();
    }

    /** `tlsProceedHandler`: the stream starts over (the switch to TLS itself
        is outside the model). */
    method TlsProceedHandler()
      requires Valid()
      modifies stream`xmlDepth, stream`xmlobj, stream`outbox, stream`beenReset
      ensures Valid()
      ensures stream.xmlDepth == 0 && stream.xmlobj == [] && stream.beenReset
      ensures stream.outbox == old(stream.outbox) + [stream.streamStart]
    {
      stream.Reset();
    }

    /** `saslChallengeHandler`: the challenge is decoded and parsed, the user
        may lose its realm part, and the reply (if any) is sent. The client
        nonce is a parameter. */
    method SaslChallengeHandler(xml: Element, cnonce: string)
      modifies this`user, stream`outbox
      ensures var r := ChallengeReply(ParseChallenge(crypto.b64Decode(xml.data)), old(user), password, server, cnonce, crypto);
        && user == (if r.Respond? then r.user else old(user))
        && stream.outbox == old(stream.outbox) + match ReplyStanza(r, crypto) case Some(s) => [s] case None => []
    {
      var vars := CollectVars(Tokens(crypto.b64Decode(xml.data)));
      var r := ChallengeReply(vars, user, password, server, cnonce, crypto);
      if r.Respond? {
        user := r.user;
      }
      var reply := ReplyStanza(r, crypto);
      if reply.Some? {
        stream.Send(reply.value);
      }
    }

    /** `resourceBindHandler`: on a result the bound jid is taken (its bare
        part before "/"); in every case a session request goes out under a
        fresh id with the session handler registered for it. */
    method ResourceBindHandler(xml: Element)
      requires Valid()
      modifies this`fulljid, this`jid, stream`lastid, stream`idhandlers, stream`outbox
      ensures Valid()
      ensures Attr(xml, "type") == "result" ==> fulljid == BoundJid(xml) && jid == FirstPiece(fulljid, '/')
      ensures Attr(xml, "type") != "result" ==> fulljid == old(fulljid) && jid == old(jid)
      ensures stream.lastid == old(stream.lastid) + 1
      ensures stream.idhandlers == Put(old(stream.idhandlers), stream.lastid, Own("sessionStartHandler"))
      ensures stream.outbox == old(stream.outbox) + [SessionRequest(stream.lastid)]
    {
      if Attr(xml, "type") == "result" {
        fulljid := BoundJid(xml);
        jid := FirstPiece(fulljid, '/');
      }
      RequestSession();
    }

    /** The session request of `resourceBindHandler`, under a fresh id with
        the session handler registered for it. */
    method RequestSession()
      requires Valid()
      modifies stream`lastid, stream`idhandlers, stream`outbox
      ensures Valid()
      ensures stream.lastid == old(stream.lastid) + 1
      ensures stream.idhandlers == Put(old(stream.idhandlers), stream.lastid, Own("sessionStartHandler"))
      ensures stream.outbox == old(stream.outbox) + [SessionRequest(stream.lastid)]
    {
      var id := stream.GetId();
      stream.AddIdHandler(id, Own("sessionStartHandler"));
      stream.Send(SessionRequest(id));
    }

    /** `sessionStartHandler`: the session is up and `session_start` is raised. */
    method SessionStartHandler()
      requires Valid()
      modifies this`sessionStarted, stream`trace, stream`untilPayload, stream`untilCount
      ensures Valid() && sessionStarted
      ensures EventRaised(stream, "session_start", Null)
    {
      sessionStarted := true;
      EnqueueKeepsWait(stream.until, stream.untilCount, stream.untilPayload, stream.nextUntilKey, "session_start", Null);
      stream.Event("session_start", Null);
    }

    // -------------------------------------------------------------------------
    // Incoming stanzas

    /** `messageHandler`: the `message` event with the message payload. */
    method MessageHandler(xml: Element)
      requires Valid()
      modifies stream`trace, stream`untilPayload, stream`untilCount
      ensures Valid()
      ensures EventRaised(stream, "message", Arr(MessagePayload(xml)))
    {
      EnqueueKeepsWait(stream.until, stream.untilCount, stream.untilPayload, stream.nextUntilKey, "message", Arr(MessagePayload(xml)));
      stream.Event("message", Arr(MessagePayload(xml)));
    }

    /** `presenceHandler`: the presence is recorded in the roster when
        presence is tracked; a subscription request is answered when the
        client subscribes automatically; then the event for the type is
        raised with the presence payload. */
    method PresenceHandler(xml: Element)
      requires Valid()
      modifies roster, stream`outbox, stream`trace, stream`untilPayload, stream`untilCount
      ensures Valid()
      ensures roster.rosterArray ==
        if trackPresence then
          WithPresence(old(roster.rosterArray), Attr(xml, "from"), PresencePriority(xml), PresenceShow(xml), PresenceStatus(xml))
        else old(roster.rosterArray)
      ensures stream.outbox == old(stream.outbox) +
        (if PresenceEvent(xml) == "subscription_requested" && autoSubscribe then SubscribeReplies(Attr(xml, "from"), fulljid) else [])
      ensures EventRaised(stream, PresenceEvent(xml), Arr(PresencePayload(xml)))
    {
      var payload := PresencePayload(xml);
      TrackPresence(xml);
      var name := PresenceEvent(xml);
      AnswerSubscription(xml, name);
      EnqueueKeepsWait(stream.until, stream.untilCount, stream.untilPayload, stream.nextUntilKey, name, Arr(payload));
      stream.Event(name, Arr(payload));
    }

    /** The roster part of `presenceHandler`. */
    method TrackPresence(xml: Element)
      requires Valid()
      modifies roster
      ensures Valid()
      ensures roster.rosterArray ==
        if trackPresence then
          WithPresence(old(roster.rosterArray), Attr(xml, "from"), PresencePriority(xml), PresenceShow(xml), PresenceStatus(xml))
        else old(roster.rosterArray)
    {
      if trackPresence {
        roster.SetPresence(Attr(xml, "from"), PresencePriority(xml), PresenceShow(xml), PresenceStatus(xml));
      }
    }

    /** The automatic answer of `presenceHandler` to a subscription request. */
    method AnswerSubscription(xml: Element, name: string)
      modifies stream`outbox
      ensures stream.outbox == old(stream.outbox) +
        (if name == "subscription_requested" && autoSubscribe then SubscribeReplies(Attr(xml, "from"), fulljid) else [])
    {
      if name == "subscription_requested" && autoSubscribe {
        var replies := SubscribeReplies(Attr(xml, "from"), fulljid);
        stream.Send(replies[0]);
        stream.Send(replies[1]);
      }
    }

    /** `rosterIqHandler`: the contacts of the query's items are added only
        when every child is an item; a push (type "set") is acknowledged. */
    method RosterIqHandler(xml: Element)
      requires Valid()
      modifies roster, stream`outbox
      ensures Valid()
      ensures var subs := SubChildren(xml, "query");
        roster.rosterArray == if AllItems(subs) then WithContacts(old(roster.rosterArray), Items(subs)) else old(roster.rosterArray)
      ensures stream.outbox == old(stream.outbox) + match RosterAck(xml) case Some(s) => [s] case None => []
    {
      var contacts, status := CollectItems(SubChildren(xml, "query"));
      if status == "result" {
        AddContacts(contacts);
      }
      var ack := RosterAck(xml);
      if ack.Some? {
        stream.Send(ack.value);
      }
    }

    /** The loop of `rosterIqHandler` that adds the collected contacts. */
    method AddContacts(contacts: seq<Contact>)
      requires Valid()
      modifies roster
      ensures Valid()
      ensures roster.rosterArray == WithContacts(old(roster.rosterArray), contacts)
    {
      var j := 0;
      while j < |contacts|
        invariant 0 <= j <= |contacts|
        invariant Valid()
        invariant roster.rosterArray == WithContacts(old(roster.rosterArray), contacts[..j])
      {
        var c := contacts[j];
        roster.AddContact(c.jid, c.subscription, c.name, c.groups);
        assert contacts[..j + 1][..j] == contacts[..j];
        j := j + 1;
      }
      assert contacts[..j] == contacts;
    }

    /** `vcardGetHandler`: the `vcard` event with the vCard payload. */
    method VcardGetHandler(xml: Element)
      requires Valid()
      modifies stream`trace, stream`untilPayload, stream`untilCount
      ensures Valid()
      ensures EventRaised(stream, "vcard", Arr(VcardPayload(xml)))
    {
      var fields := CollectVcard(SubChildren(xml, "vcard"));
      fields := Put(fields, "from", AttrValue(xml, "from"));
      EnqueueKeepsWait(stream.until, stream.untilCount, stream.untilPayload, stream.nextUntilKey, "vcard", Arr(fields));
      stream.Event("vcard", Arr(fields));
    }
  }
}
