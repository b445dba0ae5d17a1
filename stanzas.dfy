/** The stanzas the client writes and the payloads it reads out of the ones
    it receives: `message` and `presence` on the way out; the message,
    presence, roster and vCard handlers' extraction on the way in. */
module Stanzas {
  import opened Util
  import opened Dict
  import opened XmlObj
  import opened Roster

  // ---------------------------------------------------------------------------
  // Text children, as the builders write them and as a parser reads them

  /** An element that holds only text. */
  function TextElement(name: string, text: string): Element {
    Element(name, "", [], [], text)
  }

  /** `<name>text</name>`. */
  function RenderText(c: Element): string {
    "<" + c.name + ">" + c.data + "</" + c.name + ">"
  }

  function RenderTexts(cs: seq<Element>): string {
    if cs == [] then "" else RenderText(cs[0]) + RenderTexts(cs[1..])
  }

  /** The children a parser hands over for written text children: each
      entity in their text becomes the character it stands for. */
  function Parsed(cs: seq<Element>): seq<Element> {
    seq(|cs|, i requires 0 <= i < |cs| => cs[i].(data := Unescape(cs[i].data)))
  }

  /** `$xml->attrs[$k]` as a payload value: null when the attribute is missing. */
  function AttrValue(e: Element, k: string): Value {
    if HasAttr(e, k) then Str(Attr(e, k)) else Null
  }

  /** `$xml->sub($name)->data` as a payload value: null when there is no such child. */
  function SubDataValue(e: Element, name: string): Value {
    if HasSub(e, name, "") then Str(SubData(e, name)) else Null
  }

  // ---------------------------------------------------------------------------
  // message

  /** The type switch of `message`: "groupchat" stays, anything else is "chat". */
  function MessageType(msgType: string): string {
    if msgType == "groupchat" then "groupchat" else "chat"
  }

  function MessageHead(fulljid: string, to: string, msgType: string): string {
    "<message from=\"" + fulljid + "\" to=\"" + Escape(to) + "\" type=\"" + MessageType(msgType) + "\">"
  }

  /** The text children of a sent message: the subject when it is true, then the body. */
  function MessageChildren(subject: string, body: string): seq<Element> {
    (if Falsy(subject) then [] else [TextElement("subject", subject)]) + [TextElement("body", body)]
  }

  /** `message`: the start tag with the escaped recipient and the normalised
      type, the text children with escaped subject and body, the raw payload
      when it is true, and the end tag. */
  function MessageStanza(fulljid: string, to: string, body: string, msgType: string, subject: string, payload: string): string {
    MessageHead(fulljid, to, msgType)
    + RenderTexts(MessageChildren(Escape(subject), Escape(body)))
    + (if Falsy(payload) then "" else payload)
    + "</message>"
  }

  /** `messageHandler`: the type attribute or "chat", the sender, the body
      text (null when missing) and the stanza itself. */
  function MessagePayload(xml: Element): Dict<string, Value> {
    [("type", Str(if HasAttr(xml, "type") then Attr(xml, "type") else "chat")),
     ("from", AttrValue(xml, "from")),
     ("body", SubDataValue(xml, "body")),
     ("xml", Xml(xml))]
  }

  /** What `message` sends, `messageHandler` reads back: a stanza whose
      children are the parsed text children of the sent message, followed
      by whatever the payload held, gives the normalised type, the sender
      and the body exactly as they were given. */
  lemma MessageReadBack(fulljid: string, to: string, body: string, msgType: string, subject: string,
                        e: Element, extra: seq<Element>)
    requires e.subs == Parsed(MessageChildren(Escape(subject), Escape(body))) + extra
    requires Get(e.attrs, "from") == Some(fulljid) && Get(e.attrs, "type") == Some(MessageType(msgType))
    ensures MessagePayload(e) == [("type", Str(MessageType(msgType))), ("from", Str(fulljid)),
                                  ("body", Str(body)), ("xml", Xml(e))]
  {
    UnescapeEscape(body);
    var b := TextElement("body", Escape(body)).(data := Unescape(Escape(body)));
    if Falsy(Escape(subject)) {
      assert e.subs[0] == b;
    } else {
      assert e.subs[1] == b;
      assert e.subs[0].name == "subject";
    }
  }

  // ---------------------------------------------------------------------------
  // presence

  /** The type `presence` writes: none for "available", and "unavailable"
      whenever show is. */
  function PresenceType(show: string, presenceType: string): string {
    if show == "unavailable" then "unavailable" else if presenceType == "available" then "" else presenceType
  }

  /** `presence` closes the start tag at once when show is "available" and
      the escaped status is false. */
  predicate PresenceBare(status: string, show: string) {
    show == "available" && Falsy(Escape(status))
  }

  function PresenceHead(to: string, t: string): string {
    "<presence" + (if Falsy(Escape(to)) then "" else " to=\"" + Escape(to) + "\"") + (if Falsy(t) then "" else " type='" + t + "'")
  }

  /** The text children of a presence that is not bare: show unless it is
      "available", the escaped status when it is true, the priority unless
      it is 0. */
  function PresenceChildren(status: string, show: string, priority: int): seq<Element> {
    ShowChild(show) + StatusChild(status) + PriorityChild(priority)
  }

  function ShowChild(show: string): seq<Element> {
    if show != "available" then [TextElement("show", show)] else []
  }

  function StatusChild(status: string): seq<Element> {
    if Falsy(status) then [] else [TextElement("status", status)]
  }

  function PriorityChild(priority: int): seq<Element> {
    if priority != 0 then [TextElement("priority", IntToString(priority))] else []
  }

  /** `presence`: a bare presence is its start tag closed at once, whatever
      the priority, so it never carries one; any other presence writes its
      text children between the tags. */
  function PresenceStanza(status: string, show: string, to: string, presenceType: string, priority: int): string {
    var head := PresenceHead(to, PresenceType(show, presenceType));
    if PresenceBare(status, show) then head + "/>"
    else head + ">" + RenderTexts(PresenceChildren(Escape(status), show, priority)) + "</presence>"
  }

  /** The fields `presenceHandler` reads: type defaults to "available", show
      to the type, status to "" and priority (read with `intval`) to 0. */
  function PresenceTypeOf(xml: Element): string {
    if HasAttr(xml, "type") then Attr(xml, "type") else "available"
  }

  function PresenceShow(xml: Element): string {
    if HasSub(xml, "show", "") then SubData(xml, "show") else PresenceTypeOf(xml)
  }

  function PresenceStatus(xml: Element): string {
    if HasSub(xml, "status", "") then SubData(xml, "status") else ""
  }

  function PresencePriority(xml: Element): int {
    if HasSub(xml, "priority", "") then IntVal(SubData(xml, "priority")) else 0
  }

  /** `presenceHandler`'s payload. */
  function PresencePayload(xml: Element): Dict<string, Value> {
    [("type", Str(PresenceTypeOf(xml))),
     ("show", Str(PresenceShow(xml))),
     ("from", AttrValue(xml, "from")),
     ("status", Str(PresenceStatus(xml))),
     ("priority", Int(PresencePriority(xml))),
     ("xml", Xml(xml))]
  }

  /** The event `presenceHandler` raises. */
  function PresenceEvent(xml: Element): (r: string)
    ensures r == "subscription_requested" <==> HasAttr(xml, "type") && Attr(xml, "type") == "subscribe"
    ensures r == "subscription_accepted" <==> HasAttr(xml, "type") && Attr(xml, "type") == "subscribed"
    ensures r == "presence" <==> !HasAttr(xml, "type") || (Attr(xml, "type") != "subscribe" && Attr(xml, "type") != "subscribed")
  {
    if HasAttr(xml, "type") && Attr(xml, "type") == "subscribe" then "subscription_requested"
    else if HasAttr(xml, "type") && Attr(xml, "type") == "subscribed" then "subscription_accepted"
    else "presence"
  }

  lemma IntToStringPlain(i: int)
    ensures NoChar(IntToString(i), '&')
  {
    var d := NatToString(if i < 0 then -i else i);
    assert AllDigits(d);
    if i < 0 {
      assert IntToString(i) == ['-'] + d;
    }
  }

  /** The fields of a presence payload in terms of the stanza. */
  lemma PresencePayloadFields(e: Element)
    ensures var p := PresencePayload(e);
      var t := if HasAttr(e, "type") then Attr(e, "type") else "available";
      && Get(p, "type") == Some(Str(t))
      && Get(p, "show") == Some(Str(if HasSub(e, "show", "") then SubData(e, "show") else t))
      && Get(p, "status") == Some(Str(if HasSub(e, "status", "") then SubData(e, "status") else ""))
      && Get(p, "priority") == Some(Int(if HasSub(e, "priority", "") then IntVal(SubData(e, "priority")) else 0))
  {
    var p := PresencePayload(e);
    GetAt(p, 0);
    GetAt(p, 1);
    GetAt(p, 3);
    GetAt(p, 4);
  }

  /** What `presence` sends, `presenceHandler` reads back: for a presence
      that is not bare, a stanza whose children are the parsed text children
      and whose type attribute is the one written gives the same type, show,
      status and priority (show holds no entity, as none of the XMPP show
      values does). */
  lemma PresenceReadBack(status: string, show: string, presenceType: string, priority: int, e: Element)
    requires !PresenceBare(status, show) && NoChar(show, '&')
    requires e.subs == Parsed(PresenceChildren(Escape(status), show, priority))
    requires var t := PresenceType(show, presenceType);
      if Falsy(t) then !HasAttr(e, "type") else Get(e.attrs, "type") == Some(t)
    ensures var p := PresencePayload(e);
      var t := PresenceType(show, presenceType);
      var received := if Falsy(t) then "available" else t;
      && Get(p, "type") == Some(Str(received))
      && Get(p, "show") == Some(Str(if show != "available" then show else received))
      && Get(p, "status") == Some(Str(if Falsy(status) then "" else status))
      && Get(p, "priority") == Some(Int(priority))
  {
    PresencePayloadFields(e);
    PresenceChildrenRead(status, show, priority, e);
  }

  /** The three lookups of `presenceHandler` on the parsed children of a
      presence that is not bare. */
  lemma PresenceChildrenRead(status: string, show: string, priority: int, e: Element)
    requires !PresenceBare(status, show) && NoChar(show, '&')
    requires e.subs == Parsed(PresenceChildren(Escape(status), show, priority))
    ensures (if HasSub(e, "show", "") then SubData(e, "show") else "") == (if show != "available" then show else "")
    ensures HasSub(e, "show", "") <==> show != "available"
    ensures (if HasSub(e, "status", "") then SubData(e, "status") else "") == (if Falsy(status) then "" else status)
    ensures (if HasSub(e, "priority", "") then IntVal(SubData(e, "priority")) else 0) == priority
  {
    EscapeFalsy(status);
    ShowRead(Escape(status), show, priority, e);
    StatusRead(status, show, priority, e);
    PriorityRead(Escape(status), show, priority, e);
  }

  lemma ShowRead(st: string, show: string, priority: int, e: Element)
    requires NoChar(show, '&')
    requires e.subs == Parsed(PresenceChildren(st, show, priority))
    ensures HasSub(e, "show", "") <==> show != "available"
    ensures show != "available" ==> SubData(e, "show") == show
  {
    var bc := StatusChild(st) + PriorityChild(priority);
    assert forall k :: 0 <= k < |bc| ==> bc[k].name != "show";
    if show != "available" {
      UnescapePlain(show);
      SubAt(e, "show", 0);
    } else {
      NoSub(e, "show");
    }
  }

  lemma StatusRead(status: string, show: string, priority: int, e: Element)
    requires e.subs == Parsed(PresenceChildren(Escape(status), show, priority))
    requires Falsy(Escape(status)) <==> Falsy(status)
    ensures (if HasSub(e, "status", "") then SubData(e, "status") else "") == (if Falsy(status) then "" else status)
  {
    var st := Escape(status);
    var a := ShowChild(show);
    var c := PriorityChild(priority);
    var cs := a + StatusChild(st) + c;
    assert forall k :: 0 <= k < |cs| && k != |a| ==> cs[k].name != "status";
    if !Falsy(st) {
      UnescapeEscape(status);
      assert cs[|a|] == TextElement("status", st);
      SubAt(e, "status", |a|);
    } else {
      NoSub(e, "status");
    }
  }

  lemma PriorityRead(st: string, show: string, priority: int, e: Element)
    requires e.subs == Parsed(PresenceChildren(st, show, priority))
    ensures (if HasSub(e, "priority", "") then IntVal(SubData(e, "priority")) else 0) == priority
  {
    var ab := ShowChild(show) + StatusChild(st);
    var cs := ab + PriorityChild(priority);
    assert forall k :: 0 <= k < |ab| ==> cs[k].name != "priority";
    if priority != 0 {
      IntToStringPlain(priority);
      UnescapePlain(IntToString(priority));
      IntValIntToString(priority);
      assert cs[|ab|] == TextElement("priority", IntToString(priority));
      SubAt(e, "priority", |ab|);
    } else {
      NoSub(e, "priority");
    }
  }

  /** The two stanzas `presenceHandler` sends back to a subscription request
      when it subscribes automatically. */
  const SubscribedHead: string := "<presence type='subscribed' to='"
  const SubscribeHead: string := "<presence type='subscribe' to='"
  const FromPart: string := "' from='"
  const EmptyTail: string := "' />"

  function SubscribeReplies(from: string, fulljid: string): seq<string> {
    [SubscribedHead + from + FromPart + fulljid + EmptyTail,
     SubscribeHead + from + FromPart + fulljid + EmptyTail]
  }

  // ---------------------------------------------------------------------------
  // Roster pushes and results

  /** The data of the `group` children, in order. Built from the end so that
      it follows the loop that collects them. */
  function Groups(subs: seq<Element>): (r: seq<string>)
    ensures |r| <= |subs|
    ensures forall g :: g in r <==> exists i :: 0 <= i < |subs| && subs[i].name == "group" && subs[i].data == g
  {
    if subs == [] then []
    else
      var n := |subs| - 1;
      var g := Groups(subs[..n]);
      assert forall i :: 0 <= i < n ==> subs[..n][i] == subs[i];
      if subs[n].name == "group" then g + [subs[n].data] else g
  }

  /** One `item` child as a contact; a missing attribute reads as "". */
  function ItemContact(item: Element): Contact {
    Contact(Attr(item, "jid"), Attr(item, "subscription"), Attr(item, "name"), Groups(item.subs))
  }

  /** `$status` stays "result": every child of the query is an item. */
  predicate AllItems(subs: seq<Element>) {
    forall i :: 0 <= i < |subs| ==> subs[i].name == "item"
  }

  /** `$contacts`: the contacts of the item children, in order. */
  function Items(subs: seq<Element>): seq<Contact> {
    if subs == [] then []
    else
      var n := |subs| - 1;
      Items(subs[..n]) + (if subs[n].name == "item" then [ItemContact(subs[n])] else [])
  }

  /** When every child is an item, the contacts are the children's, one for one. */
  lemma {:induction false} ItemsAll(subs: seq<Element>)
    requires AllItems(subs)
    ensures |Items(subs)| == |subs|
    ensures forall i :: 0 <= i < |subs| ==> Items(subs)[i] == ItemContact(subs[i])
  {
    if subs != [] {
      var n := |subs| - 1;
      assert AllItems(subs[..n]) by {
        forall i | 0 <= i < n ensures subs[..n][i].name == "item" {
          assert subs[..n][i] == subs[i];
        }
      }
      ItemsAll(subs[..n]);
      var init := Items(subs[..n]);
      assert Items(subs) == init + [ItemContact(subs[n])];
      forall i | 0 <= i < |subs| ensures Items(subs)[i] == ItemContact(subs[i]) {
        if i < n {
          assert Items(subs)[i] == init[i] == ItemContact(subs[..n][i]);
        }
      }
    }
  }

  /** The acknowledgement `rosterIqHandler` sends for a roster push. */
  const AckHead: string := "<iq type=\"reply\" id=\""
  const AckTo: string := "\" to=\""
  const AckTail: string := "\" />"

  function RosterAck(xml: Element): Option<string> {
    if Attr(xml, "type") == "set" then
      Some(AckHead + Attr(xml, "id") + AckTo + Attr(xml, "from") + AckTail)
    else None
  }

  // ---------------------------------------------------------------------------
  // vCards

  /** `$vcardArray[$sub->name][$subChild->name] = $subChild->data`. */
  function ChildPairs(subs: seq<Element>): seq<(string, Value)> {
    seq(|subs|, i requires 0 <= i < |subs| => (subs[i].name, Str(subs[i].data)))
  }

  /** A vCard field with children becomes an array of their texts; one
      without becomes its own text. */
  function VcardEntry(sub: Element): Value {
    if sub.subs != [] then Arr(Assign(ChildPairs(sub.subs))) else Str(sub.data)
  }

  function VcardPairs(subs: seq<Element>): seq<(string, Value)> {
    seq(|subs|, i requires 0 <= i < |subs| => (subs[i].name, VcardEntry(subs[i])))
  }

  /** `vcardGetHandler`'s payload: the fields of the `vcard` child (none
      when it is missing), then the sender under "from". */
  function VcardPayload(xml: Element): Dict<string, Value> {
    Put(Assign(VcardPairs(SubChildren(xml, "vcard"))), "from", AttrValue(xml, "from"))
  }

  /** Each field of the payload is the entry of the last vCard child of that
      name, a name no child has is absent, and "from" is the sender. */
  lemma VcardFields(xml: Element, name: string)
    ensures Get(VcardPayload(xml), "from") == Some(AttrValue(xml, "from"))
    ensures var subs := SubChildren(xml, "vcard");
      && (name != "from" ==> (Get(VcardPayload(xml), name).None? <==> forall i :: 0 <= i < |subs| ==> subs[i].name != name))
      && (forall i :: 0 <= i < |subs| && subs[i].name == name && name != "from" && (forall j :: i < j < |subs| ==> subs[j].name != name) ==>
            Get(VcardPayload(xml), name) == Some(VcardEntry(subs[i])))
  {
    var subs := SubChildren(xml, "vcard");
    var ps := VcardPairs(subs);
    assert forall i :: 0 <= i < |subs| ==> ps[i] == (subs[i].name, VcardEntry(subs[i]));
    PutGet(Assign(ps), "from", AttrValue(xml, "from"));
    if name != "from" {
      PutOther(Assign(ps), "from", AttrValue(xml, "from"), name);
      AssignGet(ps, name);
    }
  }
}
