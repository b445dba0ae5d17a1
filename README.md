# XMPPHP core, modelled in Dafny

XMPPHP is a PHP library for XMPP clients. This project models three parts of it:

- **The stream engine** (`XMPPHP_XMLStream`, `xml_stream.dfy`). It receives start-tag, end-tag and text callbacks from an XML parser. It tracks the element depth and the namespace at each depth. It builds each stanza, meaning each child of the stream root, as a tree of elements. When a stanza closes, the engine calls every XPath handler, namespace handler and one-shot id handler the stanza matches. It also raises named events: they call the registered event handlers and feed the queues of `processUntil` waits. When the stream root closes, the engine sends the closing tag, marks itself disconnected and reconnects when configured to.
- **The client** (`XMPPHP_XMPP`, `xmpp.dfy` with `sasl.dfy` and `stanzas.dfy`). It registers eight XPath handlers. The handlers drive STARTTLS, SASL (ANONYMOUS, PLAIN and DIGEST-MD5), resource binding and session start. Further handlers turn incoming messages, presences, roster results and vCards into events and roster updates. The client's sending calls are `message`, `presence`, `getRoster` and `getVCard`.
- **The roster** (`Roster`, `roster.dfy`). It is a table keyed by bare jid. Each entry holds a contact record and a presence per resource, and a query returns the best presence of a jid.

Supporting modules:

- `util.dfy`: PHP string helpers, namely truthiness, `explode`, `intval` and `htmlspecialchars`.
- `dict.dfy`: PHP ordered arrays as sequences of key/value pairs.
- `xml_obj.dfy`: the parsed element type.
- `xpath.dfy`: the XPath compiler of `addXPathHandler` and the matcher of `endXML`.

Classes model the objects whose fields the source updates: `Stream`, `Client` and `Roster`. Pure computations are functions. Each loop of the modelled code is a method with loop invariants, proved against the function that specifies it. The stream engine's callbacks, events and wait loop are specified by step functions on two values: `Snapshot` holds the fields they change and `Setup` holds the fields they only read. Each such method ensures that its new snapshot is the step function of the old one (for example `AfterEnd` for `endXML`), and lemmas spell out what each step function does.

Where the code and its own comments differ, the model follows the code:

- `getPresence` chooses by priority alone. The comment at Roster.php:148 promises the highest available priority, and the test at Roster.php:149 starts by checking for a "chat" or "available" show. But the last disjunct of that test, `$current['show'] != "chat" or $current['show'] != "available"`, is always true (`BetterIsHigher`).
- The path `iq/{jabber:iq:roster}query` compiles to a single step, `{jabber:iq:roster}query`, because the leading plain segment is dropped. As a registered path it never matches an `iq` stanza (`RosterPathMissesIq`).
- The client constructor sets a field spelled `default_ns`, which the engine never reads. The engine's default namespace therefore stays null, modelled as "".
- The unavailable branch of `setPresence` unsets a `resource` key that nothing ever writes, so an "unavailable" presence leaves the table unchanged.
- The first DIGEST-MD5 response writes `digest-uri="..."`, and the client's own challenge parser reads that field back under the key `uri`, because `\w` stops at the hyphen (`ResponseKeys`, `ChallengeReplyReadBack`).

Outside inputs are modelled as follows:

- Sockets are replaced by two sequences on the engine. `outbox` holds everything written to the socket. `trace` holds every handler call the engine made.
- Time and the network's answers are replaced by a sequence of poll steps handed to `ProcessUntil`.
- MD5 and base64 are function-typed fields of a `Crypto` record.
- The client nonce is a parameter.

The model follows PHP 5, the version the source's own "PHP 5.3+" fixes target (XMLStream.php:258, Roster.php:122). PHP `null` strings are modelled as "". PHP truthiness of a string is `Falsy`, which holds for "" and "0".

## Model

| member | source | states |
|---|---|---|
| XmlStream.Stream.constructor | XMLStream.php:172-179 | a server stream does not reconnect and a client stream does; the depth is 0 and the node table, the handler registries, the wait registrations, the outbox and the trace are empty |
| XmlStream.Stream.GetId | XMLStream.php:205-208 | the id returned is the previous last id plus one, and it becomes the last id |
| XmlStream.Stream.AddIdHandler | XMLStream.php:226-228 | the handler is stored under the id: looking up the id now gives this handler, and every other id keeps its handler; keys stay distinct |
| XmlStream.Stream.AddHandler | XMLStream.php:239-242 | the registry of namespace handlers gains exactly this entry at its end |
| XmlStream.Stream.AddXPathHandler | XMLStream.php:251-268 | the registry of path handlers gains, at its end, the compiled path of the expression with the handler |
| XPath.CompilePath | XMLStream.php:252-266 | the tag loop builds exactly `Compile`: one segment per regular-expression match, or the whole expression as one segment when nothing matches |
| XmlStream.Stream.AddEventHandler | XMLStream.php:277-279 | the registry of event handlers gains exactly this entry at its end |
| XmlStream.Stream.Reset | XMLStream.php:728-737 | the new state is `AfterReset` of the old one: the depth is 0, the node table is empty and the reset flag is set; a client sends its stream opening tag and a server sends nothing; the namespaces, handlers, waits and trace are untouched |
| XmlStream.Stream.StartXml | XMLStream.php:492-524 | a pending reset first sets the depth to 0; the depth rises by exactly one; the depth's namespace is the XMLNS attribute, else the parent's, else (when that is falsy) the default; every `p:x` attribute binds prefix x; the new node (local name, namespace bound to its prefix, attributes) is appended to its parent's children and stored at its depth; the stanza node still exists at depth 2 or more |
| XmlStream.DeclareAll | XMLStream.php:506-512 | the attribute loop binds exactly what `Declare` specifies: each `p:x` attribute in document order, a later one winning |
| XmlStream.DeclareKeeps | XMLStream.php:506-512 | prefix bindings are never removed, and a prefix no attribute declares keeps its namespace |
| XmlStream.DeclareLast | XMLStream.php:506-512 | the last attribute that declares a prefix gives its binding |
| XmlStream.Stream.CharXml | XMLStream.php:618-623 | text is appended to the node at the current depth when there is one; otherwise the table is unchanged |
| XmlStream.Stream.EndXml | XMLStream.php:534-609 | the new state is `AfterEnd` of the old one, whose three cases are `EndBelowStanza`, `EndStanza` and `EndStream`; the stanza node still exists at depth 2 or more and id handler keys stay distinct |
| XmlStream.EndBelowStanza | XMLStream.php:534-541 | closing a node below a stanza clears a pending reset, lowers the depth by one and replaces the closed node's copy under its parent by its final value; nothing else changes |
| XmlStream.EndStanza | XMLStream.php:541-593 | closing back to depth 1 calls the path handlers, then the namespace handlers, then the first fitting id handler on the refreshed stanza, removes that id handler and cuts the table back; namespaces, outbox, wait queues and connection flags are untouched |
| XmlStream.EndStream | XMLStream.php:594-608 | closing the root: an open connection sends the closing tag unless already sent and is marked closed; a client with reconnection on sends the opening tag again, empties the table, sets a reset pending and raises `reconnect`; `end_stream` is raised in every case, with the wait queues and counts updated for each event |
| XmlStream.Stream.FinishStanza | XMLStream.php:545-593 | the new state is `AfterStanza` of the old one: dispatch of the stanza at depth 2, then only the first node is kept, renumbered 0, with no children |
| XmlStream.Truncate | XMLStream.php:587-593 | after a stanza at most one node is left, at key 0, with no children |
| XmlStream.Stream.Dispatch | XMLStream.php:545-586 | the calls made are those of the matching path handlers, then those of the matching namespace handlers, then the first matching id handler, all in registration order; that id handler is removed and no other registry changes |
| XmlStream.Stream.DispatchPaths | XMLStream.php:545-565 | the handler loop calls exactly the handlers whose path matches, in registration order |
| XPath.MatchPath | XMLStream.php:547-557 | the walk loop accepts exactly when the first segment fits the stanza and each further segment finds a child of the element reached so far (`PathMatches`) |
| XmlStream.PathCallsExact | XMLStream.php:545-565 | a call is made if and only if some registered path matches the stanza (its first step fits the stanza, and each further step is found among the children) and the call carries that path's handler and the stanza |
| XPath.WalkEndsOnLast | XMLStream.php:550-557 | when a path walk succeeds, the element it ends on fits the path's last step |
| XmlStream.Stream.DispatchNs | XMLStream.php:566-577 | the loop calls exactly the handlers whose name and namespace fit the stanza (or its first child of that name), in registration order |
| XmlStream.NsCallsExact | XMLStream.php:566-577 | a call is made if and only if some namespace handler fits the stanza, an empty namespace meaning the default one, and the call carries that handler |
| XmlStream.Stream.DispatchId | XMLStream.php:578-586 | only the first id handler whose id equals the stanza's `id` attribute is called, and it is unset |
| XmlStream.FirstIdIndex | XMLStream.php:578-586 | the index found is that of the first id handler whose id is the stanza's id, or -1 exactly when none is |
| XmlStream.IdHandlerFiresOnce | XMLStream.php:578-586 | after an id handler fires and is removed, the registry is the old one without that entry, no entry has its id, and the same stanza fires no id handler again |
| XmlStream.Stream.EndOfStream | XMLStream.php:594-608 | the new state is `AfterStreamEnd` of the old one: a connected stream is closed as `CloseConnection` says, and `end_stream` is always raised |
| XmlStream.Stream.CloseConnection | XMLStream.php:596-606 | the new state is `AfterClose` of the old one, which `CloseEffects` spells out |
| XmlStream.CloseEffects | XMLStream.php:596-606 | the closing tag is sent unless already sent and both flags are set; a client with reconnection on then clears both flags, sends the opening tag, empties the table, sets a reset pending and raises `reconnect`; a server stays closed; namespaces and id handlers are untouched |
| XmlStream.Stream.DoReconnect | XMLStream.php:329-336 | the new state is `AfterReconnect` of the old one: a client resets (depth 0, empty table, opening tag sent), is connected again and raises `reconnect`; a server changes nothing |
| XmlStream.Stream.Event | XMLStream.php:631-653 | every event handler registered for the name is called with the payload, in registration order; every wait registration listening for the name appends the (name, payload) pair to its queue and increments its count; nothing else changes (`AfterEvent`) |
| XmlStream.Stream.NotifyHandlers | XMLStream.php:633-640 | the handler loop calls exactly the handlers of the name, in order |
| XmlStream.EventCallsExact | XMLStream.php:633-640 | a handler is called if and only if it is registered under the event's name |
| XmlStream.EventCallsAppend | XMLStream.php:633-640 | the handlers of a later registration are called after those of earlier ones |
| XmlStream.Stream.EnqueueWaits | XMLStream.php:641-652 | the loop over wait registrations appends the pair and increments the count for exactly the registrations listening for the name |
| XmlStream.EnqueueAll | XMLStream.php:641-652 | as `EnqueueWaits`, on the three maps as values |
| XmlStream.EnqueueBumpAt | XMLStream.php:641-652 | for a listening registration the queue becomes its old queue (empty if none) plus the pair and the count its old count (0 if unset) plus one; every other queue and count is unchanged |
| XmlStream.EnqueueKeepsWait | XMLStream.php:641-652 | raising an event keeps the wait registrations consistent: every queue and count belongs to a registration, and every key is below the next key |
| XmlStream.RegisterKeepsWait | XMLStream.php:458-462 | a new registration under the next key with count 0 keeps the registrations consistent, and the key had no registration and no queue |
| XmlStream.EventKeeps | XMLStream.php:631-653 | an event keeps the registrations consistent |
| XmlStream.EventsKeep | XMLStream.php:631-653 | events raised in turn keep the registrations consistent |
| XmlStream.ReconnectKeeps | XMLStream.php:329-336 | a reconnection keeps the registrations consistent |
| XmlStream.StreamEndKeeps | XMLStream.php:594-608 | closing the root keeps the registrations consistent |
| XmlStream.XmlKeeps | XMLStream.php:492-623 | each parser callback keeps the registrations consistent |
| XmlStream.InputKeeps | XMLStream.php:414 | parsed input keeps the registrations consistent |
| XmlStream.PollKeeps | XMLStream.php:373-428 | a poll step keeps the registrations consistent, so the wait loop does |
| XmlStream.Stream.ProcessUntil | XMLStream.php:455-475 | the wait takes the next array key with count 0; the new state is that of `AfterWait` from there; it returns an empty queue and stays registered (count 0) exactly when no listened-for event arrived, and otherwise returns the pairs collected and unsets the queue, the count and the registration; every returned pair names one of the awaited events |
| XmlStream.Stream.ProcessUntilEvent | XMLStream.php:455-475 | as `ProcessUntil` with the one name as the set awaited; every returned pair has that name |
| XmlStream.Stream.Register | XMLStream.php:458-462 | the wait is stored under the next key, which had no registration and no queue, with count 0; the next key moves on; the registrations stay consistent |
| XmlStream.Stream.WaitFor | XMLStream.php:463-465 | the new state is `AfterWait` of the old one: poll steps run in order while steps remain, the stream is connected and the count is below 1; the registrations stay consistent |
| XmlStream.Stream.Poll | XMLStream.php:373-428 | one step of a round of `__process` is `AfterPoll`: input goes to the parser callbacks, events raised by handlers are raised in order, and a failed read reconnects when reconnection is on |
| XmlStream.Stream.Feed | XMLStream.php:414 | `xml_parse` on received input makes the callbacks in document order: the new state is `AfterInput` of the old one |
| XmlStream.Stream.Callback | XMLStream.php:492-623 | one parser event goes to `startXML`, `endXML` or `charXML`: the new state is `AfterXml` of the old one |
| XmlStream.OneChildStanza | XMLStream.php:492-623 | from depth 1, the input `<n a><c b>t</c></n>` hands the handlers the stanza n with c, holding text t, as its one child, namespaces and prefixes resolved as `startXML` does; the depth is back at 1 and nothing is sent or queued |
| XmlStream.OneChildTable | XMLStream.php:519-540 | in the node table the child is appended to the stanza at open and its final value, with its text, replaces that copy at close |
| XmlStream.Stream.Collect | XMLStream.php:466-474 | when the queue exists it is returned and the queue, the count and the registration are unset; otherwise the result is empty, the count stays 0 and nothing changes; no queue is left under the key |
| XmlStream.Stream.Await | XMLStream.php:463-474 | the wait loop and the collection: the state is `AfterWait`'s, less the queue, count and registration when a queue exists, whose pairs are returned |
| XmlStream.Stream.RaiseAll | XMLStream.php:631-653 | events raised in turn: the new state is `AfterEvents` of the old one |
| XPath.Compile | XMLStream.php:252-266 | every expression compiles to at least one step |
| XPath.CompileRender | XMLStream.php:252-266 | an expression written as `{ns}name/{ns}name/...` compiles back to exactly its steps |
| XPath.CompilePlain | XMLStream.php:252-256 | an expression with no braces compiles to one step with no namespace and the whole expression as its name |
| XPath.PlainPrefixDropped | XMLStream.php:252-253 | a leading segment without a namespace is dropped: `prefix/{ns}a/...` compiles to the steps after the prefix |
| XPath.RosterPathOneSegment | XMPPHP_XMPP.php:151 | the roster path compiles to the single step `{jabber:iq:roster}query` |
| XPath.RosterPathMissesIq | XMPPHP_XMPP.php:151 | the compiled roster path never matches a stanza named `iq` |
| Roster.Roster.constructor | Roster.php:52-58 | since `verifyRoster` accepts everything, the given table is adopted as it is |
| Roster.Roster.GetContact | Roster.php:96-100 | a contact is returned if and only if the jid is in the table (`isContact`), and it is the contact stored under that jid |
| Roster.Roster.GetRoster | Roster.php:162-164 | the returned table has a key exactly for each jid that `isContact` accepts |
| Roster.Roster.AddContact | Roster.php:81-88 | the contact is stored under its jid, an existing jid keeps its presences and a new one has none, and every other entry is unchanged |
| Roster.Roster.SetPresence | Roster.php:121-133 | an "unavailable" presence changes nothing; otherwise the bare jid is added as "not-in-roster" when unknown, the presence is stored under the resource ("" when there is none or it is falsy), the contact record is kept, and every other entry is unchanged |
| Roster.Roster.StorePresence | Roster.php:129 | the presence is stored under the resource of a known jid, and every other entry is unchanged |
| Roster.Roster.GetPresence | Roster.php:141-156 | for a known bare jid (any resource in the query dropped), the answer is the first resource with the highest priority above -129, or the sentinel when there is none; for an unknown jid there is no answer |
| Roster.BetterIsHigher | Roster.php:149 | the selection test holds exactly when the priority is higher; the show values never matter |
| Roster.ChosenUnique | Roster.php:146-153 | at most one resource qualifies as the answer, so the answer is determined by the presences |
| Roster.WithContactsKeys | XMPPHP_XMPP.php:472-475 | after adding contacts in turn, a jid is in the table exactly when it was before or one of the contacts has it |
| Roster.WithContactsPresence | XMPPHP_XMPP.php:472-475 | adding contacts keeps every known jid and its presences, and leaves a jid no contact has untouched |
| Roster.WithContactsLast | XMPPHP_XMPP.php:472-475 | the last contact added for a jid is the one stored |
| Sasl.Available | XMPPHP_XMPP.php:310-317 | the collected mechanisms map each name to itself and are supported ones |
| Sasl.CollectAvailable | XMPPHP_XMPP.php:310-317 | the mechanism loop collects exactly `Available` |
| Sasl.Preferred | XMPPHP_XMPP.php:318-323 | DIGEST-MD5 exactly when collected; no mechanism exactly when none was collected; PLAIN exactly when PLAIN but not DIGEST-MD5 was collected |
| Sasl.PickMechanism | XMPPHP_XMPP.php:306-323 | the branch of `featuresHandler` up to the choice picks exactly `ChooseMechanism` |
| Sasl.AvailableOffered | XMPPHP_XMPP.php:310-317 | a supported mechanism is collected if and only if some `mechanism` child names it |
| Sasl.ChooseMechanism | XMPPHP_XMPP.php:306-336 | with a falsy password ANONYMOUS; otherwise DIGEST-MD5 exactly when offered, PLAIN when no list is given or PLAIN is the only supported one offered, and no mechanism when the list offers neither |
| Sasl.AuthStanza | XMPPHP_XMPP.php:326-336 | an `<auth>` element is sent for every chosen mechanism and nothing when none was chosen |
| Sasl.PlainMessageFields | XMPPHP_XMPP.php:328 | the PLAIN message splits at NUL into the three fields of section 2 of RFC 4616: an empty authorization identity, the user and the password |
| Sasl.ParseRender | XMPPHP_XMPP.php:376-380 | the challenge parser reads back the key/value pairs of rendered `k="v"` and `k=v` fields (a key read up to its last hyphen-free word) |
| Sasl.TokensRender | XMPPHP_XMPP.php:376 | the regular expression's matches over rendered fields are exactly their pairs, in order |
| Sasl.CollectVars | XMPPHP_XMPP.php:377-380 | the challenge loop assigns the matches in order, exactly `PutAll` from an empty array |
| Sasl.ResponseVars | XMPPHP_XMPP.php:384-387 | the variables get the client nonce, nc 00000001, qop "auth" and, when the challenge had none, the digest URI `xmpp/` + server; every other variable is the challenge's |
| Sasl.ChallengeReply | XMPPHP_XMPP.php:382-418 | there is a first response if and only if the challenge has a nonce, an empty response if and only if it has only rspauth, and nothing otherwise; the user name becomes its part before "@" when that supplies the realm |
| Sasl.ChallengeReplyText | XMPPHP_XMPP.php:388-405 | the first response is the nine fields built from the challenge's realm (or the user's), nonce and digest URI, the client nonce, count 00000001, qop "auth" and the digest |
| Sasl.ChallengeReplyReadBack | XMPPHP_XMPP.php:404-405 | the first response read back by the client's parser gives those nine values, the digest URI under the key `uri` |
| Sasl.ResponseFieldsReadBack | XMPPHP_XMPP.php:404-405 | the nine rendered response fields parse back to their pairs |
| Sasl.ResponseKeys | XMPPHP_XMPP.php:404 | every response key reads back as itself except `digest-uri`, which reads back as `uri` |
| Sasl.DigestIsRfc2831 | XMPPHP_XMPP.php:397-403 | with md5-sess the client's digest equals the response-value of section 2.1.2.1 of RFC 2831 (qop auth, no authzid), provided MD5 yields bytes |
| Sasl.UnhexHex | XMPPHP_XMPP.php:399 | packing the hex digest (`pack('H32', ...)`) gives back the raw digest bytes |
| Sasl.ReplyStanza | XMPPHP_XMPP.php:408-413 | a `<response>` element is sent for a first or empty response and nothing when the challenge had neither nonce nor rspauth |
| Stanzas.MessageReadBack | XMPPHP_XMPP.php:182-205 | what `message` sends, `messageHandler` reads back: the normalised type, the sender and the body exactly as given (after escaping and unescaping) |
| Stanzas.PresenceReadBack | XMPPHP_XMPP.php:214-234 | what `presence` sends, `presenceHandler` reads back: the type ("available" when none was written), show, status ("" when falsy) and priority as given |
| Stanzas.PresenceChildrenRead | XMPPHP_XMPP.php:227-229 | a show child is present exactly when show is not "available", and the status and priority children give back what was written |
| Stanzas.PresencePayloadFields | XMPPHP_XMPP.php:269-273 | the payload's type defaults to "available", show to the type, status to "" and priority (read by `intval`) to 0 |
| Stanzas.PresenceEvent | XMPPHP_XMPP.php:279-289 | the event is `subscription_requested` exactly for type "subscribe", `subscription_accepted` exactly for "subscribed", and `presence` otherwise |
| Stanzas.Groups | XMPPHP_XMPP.php:462-466 | a group is collected if and only if some `group` child holds it |
| Stanzas.ItemsAll | XMPPHP_XMPP.php:456-467 | when every child is an item, the contacts are the children's, one for one and in order |
| Stanzas.VcardFields | XMPPHP_XMPP.php:525-540 | each payload field is the entry of the last vCard child of that name, a name no child has is absent, and "from" is the sender |
| Xmpp.CollectGroups | XMPPHP_XMPP.php:462-466 | the group loop collects exactly `Groups` |
| Xmpp.CollectItems | XMPPHP_XMPP.php:456-471 | the item loop collects exactly `Items`, and the status is "result" if and only if every child is an item |
| Xmpp.CollectChildren | XMPPHP_XMPP.php:532-534 | the inner vCard loop stores each child's text under its name, a later child winning |
| Xmpp.CollectVcard | XMPPHP_XMPP.php:529-538 | the outer vCard loop stores each child under its name: its children's texts when it has children, else its own text, a later child winning |
| Xmpp.ClientStream | XMPPHP_XMPP.php:128-154 | the client's engine is a fresh client stream with the client's tags and exactly the eight path handlers, in order |
| Xmpp.RegisterNegotiation | XMPPHP_XMPP.php:145-148 | the features, success, failure and proceed handlers are registered in this order |
| Xmpp.RegisterStanzas | XMPPHP_XMPP.php:149-153 | the message, presence, roster and challenge handlers are registered in this order |
| Xmpp.RegisterRoster | XMPPHP_XMPP.php:151 | the roster handler is registered under the one-step compiled path |
| Xmpp.Register | XMPPHP_XMPP.php:145 | registering `{ns}name` adds a one-step path for that name and namespace |
| Xmpp.Client.constructor | XMPPHP_XMPP.php:128-154 | the server defaults to the host, the base jid is user@host, encryption and presence tracking are on, the roster is empty and the eight path handlers are registered; the engine's default namespace stays "" |
| Xmpp.Client.Message | XMPPHP_XMPP.php:182-205 | exactly one stanza is sent: escaped recipient, type "groupchat" or else "chat", subject when true, body, and the raw payload when true |
| Xmpp.Client.Presence | XMPPHP_XMPP.php:214-234 | exactly one stanza is sent: bare when show is "available" and the status is falsy, else with show, status and priority children as the source writes them |
| Xmpp.Client.GetRoster | XMPPHP_XMPP.php:442-445 | a roster request is sent under a fresh id |
| Xmpp.Client.GetVCard | XMPPHP_XMPP.php:510-518 | the vCard handler is registered under a fresh id and the request carries that same id |
| Xmpp.Client.FeaturesHandler | XMPPHP_XMPP.php:297-338 | STARTTLS when offered and wanted; else binding when offered after authentication, with the bind handler under the request's id; else the `<auth>` of the chosen mechanism, or nothing |
| Xmpp.Client.RequestBind | XMPPHP_XMPP.php:300-303 | the bind handler is registered under a fresh id and the bind request carries that id and the resource |
| Xmpp.Client.SaslSuccessHandler | XMPPHP_XMPP.php:345-350 | the client is authenticated and the stream is reset, a new opening tag being sent |
| Xmpp.Client.TlsProceedHandler | XMPPHP_XMPP.php:499-504 | the stream is reset and a new opening tag is sent |
| Xmpp.Client.SaslChallengeHandler | XMPPHP_XMPP.php:370-419 | the reply is `ChallengeReply` on the decoded and parsed challenge; the user name is updated only for a first response; a stanza is sent exactly when there is a reply |
| Xmpp.Client.ResourceBindHandler | XMPPHP_XMPP.php:426-436 | on a result the full jid is the bound one and the bare jid its part before "/"; otherwise both are kept; in every case a session request goes out under a fresh id with the session handler registered for it |
| Xmpp.Client.RequestSession | XMPPHP_XMPP.php:433-435 | the session handler is registered under a fresh id and the request carries that id |
| Xmpp.Client.SessionStartHandler | XMPPHP_XMPP.php:487-492 | the session is started and `session_start` is raised with no payload |
| Xmpp.Client.MessageHandler | XMPPHP_XMPP.php:250-261 | `message` is raised with the type (default "chat"), the sender, the body and the stanza |
| Xmpp.Client.PresenceHandler | XMPPHP_XMPP.php:268-290 | when tracking, the roster gets the presence; a subscription request is answered with two stanzas when subscribing automatically; the event chosen by `PresenceEvent` is raised with the presence payload |
| Xmpp.Client.TrackPresence | XMPPHP_XMPP.php:275-277 | the roster changes as `setPresence` with the payload's fields, and only when tracking is on |
| Xmpp.Client.AnswerSubscription | XMPPHP_XMPP.php:279-283 | two stanzas, "subscribed" then "subscribe", go to the sender, only for a request with automatic subscription on |
| Xmpp.Client.RosterIqHandler | XMPPHP_XMPP.php:453-480 | the contacts of the items are added in order only when every child of the query is an item; a push of type "set" is acknowledged |
| Xmpp.Client.AddContacts | XMPPHP_XMPP.php:472-475 | the roster becomes the old one with each contact added in turn |
| Xmpp.Client.VcardGetHandler | XMPPHP_XMPP.php:525-541 | `vcard` is raised with the vCard fields and the sender |
| Util.UnescapeEscape | XMPPHP_XMPP.php:184-186 | unescaping the output of `htmlspecialchars` gives the input back |
| Util.EscapeFalsy | XMPPHP_XMPP.php:197 | escaping keeps a string's truthiness |
| Util.IntValIntToString | XMPPHP_XMPP.php:273 | `intval` of a written integer gives it back |
| Util.JoinSplit | Roster.php:123 | the pieces of a split joined again give the string back |
| Dict.PutGet | XMLStream.php:227 | after an array assignment the key holds the new value |
| Dict.PutOther | XMLStream.php:227 | an array assignment leaves every other key as it was |
| Dict.RemoveGet | XMLStream.php:583 | after `unset` the key is absent |
| Dict.AssignGet | XMPPHP_XMPP.php:533-536 | assigning pairs in turn leaves each key with its last value and no key that was never assigned |
| XmlObj.Sub | XMLStream.php:551-552 | a child is found if and only if one fits the name (and namespace); the one found is a child that fits, and no earlier child fits |

## Left out

- Sockets, `connect`, `disconnect`, `read`, `send`'s writing and `select` are replaced by the `outbox` sequence and the poll steps of `ProcessUntil`. A poll step is received input (`Received`), the events the handlers run on that input raise (`Raised`), or a failed read (`Lost`). A read failure reconnects at once, as if `connect` succeeded; socket errors and exceptions are not modelled.
- XmlStream.Stream.ProcessUntil: the wall-clock timeout is replaced by the length of the poll sequence, which bounds the wait loop.
- The expat parser itself (tokenising, case folding, errors) is left out; the model starts at the parser's callbacks, with names and attribute keys as the callbacks receive them.
- `stream_socket_enable_crypto` in `tlsProceedHandler` is left out; the handler is modelled by its reset.
- MD5, base64 and the `uniqid(mt_rand())` client nonce are inputs: a `Crypto` record of functions and a parameter.
- Util.Escape models `htmlspecialchars` on its four default entities only.
- Util.IntVal does not model the saturation of `intval` at the platform's integer bounds.
- XmlStream.IdMatch compares the `id` attribute with the decimal spelling of the integer key; PHP's loose comparison also accepts spellings such as "05" or " 5".
- `saslFailureHandler` (it disconnects and throws), `subscribe`, the `useEncryption`, `autoSubscribe` and `useSSL` setters, logging and the destructor are not modelled.
- Handlers are not executed by the engine: a dispatch records the call in `trace`, and the client's handlers are separate methods, so reentrancy is not modelled.
- XmlStream.Stream.WaitFor tests its stop condition after every poll step, so also between received input and the events its handlers raise; `processUntil` tests it only after a whole round of `__process` (XMLStream.php:463-465). When one read delivers both a stanza whose handler raises an awaited event and the stream's closing tag, the source returns both pairs, the handler's first; the model stops once the round's first awaited event is counted, and the engine's own events come before the handlers' ones in the queue.
- The inheritance of `XMPPHP_XMPP` from the stream engine is modelled as composition: the client holds its engine.
- Xmpp.BoundJid reads a missing `bind` or `jid` child as "" where PHP would raise an error.
- The initial string value of `$this->until` and `$this->untilCount` (XMLStream.php:129, :133) is not modelled: the waits start as empty maps, which is how PHP before 7.1 treats an empty string that is assigned to by key.
- The handler calls at XMLStream.php:561, :575 and :581 (`$handler[2]->$handler[1](...)` and the like) work as intended only under PHP 5. PHP 7 and later read them as `($obj->$handler)[i](...)`, so they fail and no path, namespace or id handler is called; the model records every such call in `trace`, as PHP 5 does.
- Elements are values, not shared objects: a child is copied into its parent when it opens and the copy is refreshed when it closes. The first depth-2 start after a stanza finds no depth-1 entry (the table was renumbered to key 0); the model then attaches nothing.
- XMLObj.php is not part of this model; `hasSub` and `sub` are modelled as finding the first child of that name and, when given, namespace.
- Roster.Roster.constructor requires distinct keys and distinct resources per jid, which every PHP array has.
- String comparisons that PHP makes loosely between numeric strings are modelled as exact string equality.
