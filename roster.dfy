/** The roster table (`Roster`): one entry per bare jid, holding the contact
    record and the presence last announced by each of its resources. */
module Roster {
  import opened Util
  import opened Dict

  /** `array('jid' => ..., 'subscription' => ..., 'name' => ..., 'groups' => ...)`. */
  datatype Contact = Contact(jid: string, subscription: string, name: string, groups: seq<string>)

  /** `array('priority' => ..., 'show' => ..., 'status' => ...)`. */
  datatype Presence = Presence(priority: int, show: string, status: string)

  /** `array('contact' => ..., 'presence' => array(resource => Presence))`. */
  datatype Entry = Entry(contact: Contact, presence: Dict<string, Presence>)

  /** What `getPresence` hands back: a presence with the resource it came from. */
  datatype Best = Best(resource: string, priority: int, show: string, status: string)

  /** The starting point of `getPresence`: below every priority a client may
      announce (-128 to 127). */
  const Sentinel := Best("", -129, "", "")

  /** The selection test of `getPresence`, written as the source writes it.
      Its last disjunct holds for every show value, so only the priority
      decides (see `BetterIsHigher`). */
  predicate Better(p: Presence, current: Best) {
    p.priority > current.priority
    && ((p.show == "chat" || p.show == "available") || (current.show != "chat" || current.show != "available"))
  }

  lemma BetterIsHigher(p: Presence, current: Best)
    ensures Better(p, current) <==> p.priority > current.priority
  {
  }

  /** The keys of the table and of each presence map are distinct, as the
      keys of any PHP array are. */
  ghost predicate TableValid(t: Dict<string, Entry>) {
    && DistinctKeys(t)
    && (forall i :: 0 <= i < |t| ==> DistinctKeys(t[i].1.presence))
  }

  class Roster {
    var rosterArray: Dict<string, Entry>

    ghost predicate Valid()
      reads this
    {
      TableValid(rosterArray)
    }

    /** `verifyRoster` accepts every array, so the given table is adopted as it is. */
    constructor (rosterArray: Dict<string, Entry>)
      requires TableValid(rosterArray)
      ensures Valid()
      ensures this.rosterArray == rosterArray
    {
      this.rosterArray := rosterArray;
    }

    /** `isContact`: the jid is a key of the table. */
    predicate IsContact(jid: string)
      reads this
    {
      HasKey(rosterArray, jid)
    }

    /** `getContact`: the stored contact of a jid in the table, nothing otherwise. */
    function GetContact(jid: string): (r: Option<Contact>)
      reads this
      ensures r.Some? <==> IsContact(jid)
      ensures r.Some? ==> exists i :: 0 <= i < |rosterArray| && rosterArray[i].0 == jid && rosterArray[i].1.contact == r.value
    {
      GetIndexOf(rosterArray, jid);
      match Get(rosterArray, jid)
      case Some(e) => Some(e.contact)
      case None => None
    }

    function GetRoster(): (r: Dict<string, Entry>)
      reads this
      ensures forall jid :: HasKey(r, jid) <==> IsContact(jid)
    {
      rosterArray
    }

    /** `addContact`: a new jid gets an entry holding only the contact; a known
        jid has its contact replaced and keeps its presence map. */
    method AddContact(jid: string, subscription: string, name: string, groups: seq<string>)
      requires Valid()
      modifies this
      ensures Valid()
      ensures rosterArray == WithContact(old(rosterArray), Contact(jid, subscription, name, groups))
      ensures GetContact(jid) == Some(Contact(jid, subscription, name, groups))
      ensures HasKey(old(rosterArray), jid) ==> Get(rosterArray, jid).value.presence == Get(old(rosterArray), jid).value.presence
      ensures !HasKey(old(rosterArray), jid) ==> Get(rosterArray, jid).value.presence == []
      ensures forall j :: j != jid ==> Get(rosterArray, j) == Get(old(rosterArray), j)
    {
      var c := Contact(jid, subscription, name, groups);
      var e := if IsContact(jid) then Get(rosterArray, jid).value.(contact := c) else Entry(c, []);
      if IsContact(jid) {
        EntryValid(rosterArray, jid);
      }
      PutTableValid(rosterArray, jid, e);
      PutGet(rosterArray, jid, e);
      forall j | j != jid ensures Get(Put(rosterArray, jid, e), j) == Get(rosterArray, j) {
        PutOther(rosterArray, jid, e, j);
      }
      rosterArray := Put(rosterArray, jid, e);
    }

    /** `setPresence`: an available presence is stored under its resource,
        adding the jid as "not-in-roster" when it is unknown; "unavailable"
        unsets a key the table never holds, so nothing changes. */
    method SetPresence(presence: string, priority: int, show: string, status: string)
      requires Valid()
      modifies this
      ensures Valid()
      ensures rosterArray == WithPresence(old(rosterArray), presence, priority, show, status)
      ensures show == "unavailable" ==> rosterArray == old(rosterArray)
      ensures show != "unavailable" ==>
        var jid := FirstPiece(presence, '/');
        var res := if Falsy(SecondPiece(presence, '/')) then "" else SecondPiece(presence, '/');
        var e := Get(rosterArray, jid);
        && e.Some?
        && e.value.contact == (if HasKey(old(rosterArray), jid) then Get(old(rosterArray), jid).value.contact
                               else Contact(jid, "not-in-roster", "", []))
        && e.value.presence == Put(if HasKey(old(rosterArray), jid) then Get(old(rosterArray), jid).value.presence else [],
                                   res, Presence(priority, show, status))
        && (forall j :: j != jid ==> Get(rosterArray, j) == Get(old(rosterArray), j))
    {
      var jid := FirstPiece(presence, '/');
      var resource := SecondPiece(presence, '/');
      if show != "unavailable" {
        if !IsContact(jid) {
          AddContact(jid, "not-in-roster", "", []);
        }
        resource := if Falsy(resource) then "" else resource;
        StorePresence(jid, resource, Presence(priority, show, status));
      }
    }

    /** `$this->rosterArray[$jid]['presence'][$resource] = ...` on a jid in the table. */
    method StorePresence(jid: string, resource: string, p: Presence)
      requires Valid() && IsContact(jid)
      modifies this
      ensures Valid()
      ensures var e := Get(old(rosterArray), jid).value;
        rosterArray == Put(old(rosterArray), jid, e.(presence := Put(e.presence, resource, p)))
      ensures var e := Get(old(rosterArray), jid).value;
        Get(rosterArray, jid) == Some(e.(presence := Put(e.presence, resource, p)))
      ensures forall j :: j != jid ==> Get(rosterArray, j) == Get(old(rosterArray), j)
    {
      var e := Get(rosterArray, jid).value;
      EntryValid(rosterArray, jid);
      PutDistinct(e.presence, resource, p);
      var e' := e.(presence := Put(e.presence, resource, p));
      PutTableValid(rosterArray, jid, e');
      PutGet(rosterArray, jid, e');
      forall j | j != jid ensures Get(Put(rosterArray, jid, e'), j) == Get(rosterArray, j) {
        PutOther(rosterArray, jid, e', j);
      }
      rosterArray := Put(rosterArray, jid, e');
    }

    /** `getPresence`: for a jid in the table (any resource in the query is
        dropped), the first resource in map order with the highest priority,
        or the sentinel when no resource announces a priority above -129;
        nothing for an unknown jid. */
    method GetPresence(query: string) returns (r: Option<Best>)
      ensures var jid := FirstPiece(query, '/');
        && (r.Some? <==> IsContact(jid))
        && (r.Some? ==> Selected(Get(rosterArray, jid).value.presence, r.value))
    {
      var jid := FirstPiece(query, '/');
      if !IsContact(jid) {
        return None;
      }
      var ps := Get(rosterArray, jid).value.presence;
      var current := Sentinel;
      var bi := -1;
      var k := 0;
      while k < |ps|
        invariant 0 <= k <= |ps| && -1 <= bi < k
        invariant bi == -1 ==> current == Sentinel && forall j :: 0 <= j < k ==> ps[j].1.priority <= -129
        invariant bi >= 0 ==> current == FromEntry(ps[bi]) && ps[bi].1.priority > -129
        invariant bi >= 0 ==> forall j :: 0 <= j < bi ==> ps[j].1.priority < ps[bi].1.priority
        invariant bi >= 0 ==> forall j :: 0 <= j < k ==> ps[j].1.priority <= ps[bi].1.priority
      {
        var (resource, p) := ps[k];
        BetterIsHigher(p, current);
        if Better(p, current) {
          current := Best(resource, p.priority, p.show, p.status);
          bi := k;
        }
        k := k + 1;
      }
      if bi >= 0 {
        SelectedAt(ps, bi);
      }
      r := Some(current);
    }
  }

  /** The table after `setPresence`: unchanged for "unavailable"; otherwise
      the jid is added as "not-in-roster" when unknown and the presence is
      stored under the resource ("" when there is none). */
  function WithPresence(t: Dict<string, Entry>, presence: string, priority: int, show: string, status: string): Dict<string, Entry> {
    if show == "unavailable" then t
    else
      var jid := FirstPiece(presence, '/');
      var res := if Falsy(SecondPiece(presence, '/')) then "" else SecondPiece(presence, '/');
      var t1 := if HasKey(t, jid) then t else WithContact(t, Contact(jid, "not-in-roster", "", []));
      PutGet(t, jid, Entry(Contact(jid, "not-in-roster", "", []), []));
      var e := Get(t1, jid).value;
      Put(t1, jid, e.(presence := Put(e.presence, res, Presence(priority, show, status))))
  }

  /** The table after `addContact(c)`: the contact under its jid, keeping the
      presence map the jid had, if any. */
  function WithContact(t: Dict<string, Entry>, c: Contact): Dict<string, Entry> {
    Put(t, c.jid, Entry(c, if HasKey(t, c.jid) then Get(t, c.jid).value.presence else []))
  }

  /** The table after `addContact` for each contact in turn. */
  function WithContacts(t: Dict<string, Entry>, cs: seq<Contact>): Dict<string, Entry> {
    if cs == [] then t else WithContact(WithContacts(t, cs[..|cs| - 1]), cs[|cs| - 1])
  }

  /** Adding contacts in turn: a jid is in the table exactly when it was
      before or some added contact has it. */
  lemma {:induction false} WithContactsKeys(t: Dict<string, Entry>, cs: seq<Contact>, jid: string)
    ensures HasKey(WithContacts(t, cs), jid) <==> HasKey(t, jid) || exists i :: 0 <= i < |cs| && cs[i].jid == jid
  {
    if cs != [] {
      var n := |cs| - 1;
      var w := WithContacts(t, cs[..n]);
      var c := cs[n];
      WithContactsKeys(t, cs[..n], jid);
      JidSplit(cs, cs[..n], jid);
      WithContactKeys(w, c, jid);
    }
  }

  lemma WithContactKeys(t: Dict<string, Entry>, c: Contact, jid: string)
    ensures HasKey(WithContact(t, c), jid) <==> HasKey(t, jid) || c.jid == jid
  {
    var e := Entry(c, if HasKey(t, c.jid) then Get(t, c.jid).value.presence else []);
    if c.jid == jid {
      PutGet(t, jid, e);
    } else {
      PutOther(t, c.jid, e, jid);
    }
  }

  /** Some contact has the jid exactly when one before the last does or the last does. */
  lemma JidSplit(cs: seq<Contact>, init: seq<Contact>, jid: string)
    requires cs != [] && init == cs[..|cs| - 1]
    ensures (exists i :: 0 <= i < |cs| && cs[i].jid == jid)
       <==> (exists i :: 0 <= i < |init| && init[i].jid == jid) || cs[|cs| - 1].jid == jid
  {
    if exists i :: 0 <= i < |cs| && cs[i].jid == jid {
      var i :| 0 <= i < |cs| && cs[i].jid == jid;
      if i < |init| {
        assert init[i] == cs[i];
      }
    }
    if exists i :: 0 <= i < |init| && init[i].jid == jid {
      var i :| 0 <= i < |init| && init[i].jid == jid;
      assert cs[i] == init[i];
    }
  }

  /** Each jid keeps the presence map it had, and a jid no added contact has
      keeps its whole entry. */
  lemma {:induction false} WithContactsPresence(t: Dict<string, Entry>, cs: seq<Contact>, jid: string)
    ensures HasKey(t, jid) ==> HasKey(WithContacts(t, cs), jid)
    ensures HasKey(t, jid) ==> Get(WithContacts(t, cs), jid).value.presence == Get(t, jid).value.presence
    ensures (forall i :: 0 <= i < |cs| ==> cs[i].jid != jid) ==> Get(WithContacts(t, cs), jid) == Get(t, jid)
  {
    if cs != [] {
      var n := |cs| - 1;
      var init := cs[..n];
      var w := WithContacts(t, init);
      var c := cs[n];
      WithContactsPresence(t, init, jid);
      WithContactsKeys(t, cs, jid);
      var e := Entry(c, if HasKey(w, c.jid) then Get(w, c.jid).value.presence else []);
      if c.jid == jid {
        PutGet(w, jid, e);
      } else {
        PutOther(w, c.jid, e, jid);
        if forall i :: 0 <= i < |cs| ==> cs[i].jid != jid {
          forall i | 0 <= i < n ensures init[i].jid != jid {
            assert init[i] == cs[i];
          }
        }
      }
    }
  }

  /** A jid that was added holds the last contact given for it. */
  lemma {:induction false} WithContactsLast(t: Dict<string, Entry>, cs: seq<Contact>, i: nat)
    requires i < |cs| && forall j :: i < j < |cs| ==> cs[j].jid != cs[i].jid
    ensures HasKey(WithContacts(t, cs), cs[i].jid)
    ensures Get(WithContacts(t, cs), cs[i].jid).value.contact == cs[i]
  {
    var n := |cs| - 1;
    var init := cs[..n];
    var w := WithContacts(t, init);
    var c := cs[n];
    var e := Entry(c, if HasKey(w, c.jid) then Get(w, c.jid).value.presence else []);
    if i == n {
      PutGet(w, c.jid, e);
    } else {
      assert init[i] == cs[i];
      forall j | i < j < n ensures init[j].jid != init[i].jid {
        assert init[j] == cs[j];
      }
      WithContactsLast(t, init, i);
      PutOther(w, c.jid, e, cs[i].jid);
    }
  }

  /** The entry at position i wins: it is above the sentinel, nothing before
      it reaches its priority, and nothing after it exceeds it. */
  ghost predicate Chosen(ps: Dict<string, Presence>, i: int)
    requires 0 <= i < |ps|
  {
    && ps[i].1.priority > -129
    && (forall j :: 0 <= j < i ==> ps[j].1.priority < ps[i].1.priority)
    && (forall j :: 0 <= j < |ps| ==> ps[j].1.priority <= ps[i].1.priority)
  }

  /** What `getPresence` may answer for a presence map: the sentinel when no
      priority is above it, or the entry that is chosen. */
  ghost predicate Selected(ps: Dict<string, Presence>, b: Best) {
    || (b == Sentinel && forall j :: 0 <= j < |ps| ==> ps[j].1.priority <= -129)
    || (exists i :: 0 <= i < |ps| && Chosen(ps, i) && b == FromEntry(ps[i]))
  }

  lemma SelectedAt(ps: Dict<string, Presence>, i: int)
    requires 0 <= i < |ps| && Chosen(ps, i)
    ensures Selected(ps, FromEntry(ps[i]))
  {
  }

  /** At most one entry is chosen, so the answer is determined by the map. */
  lemma ChosenUnique(ps: Dict<string, Presence>, i: int, k: int)
    requires 0 <= i < |ps| && 0 <= k < |ps| && Chosen(ps, i) && Chosen(ps, k)
    ensures i == k
  {
  }

  function FromEntry(e: (string, Presence)): Best {
    Best(e.0, e.1.priority, e.1.show, e.1.status)
  }

  lemma EntryValid(t: Dict<string, Entry>, jid: string)
    requires TableValid(t) && HasKey(t, jid)
    ensures DistinctKeys(Get(t, jid).value.presence)
  {
    GetIndexOf(t, jid);
  }

  /** Storing an entry with distinct resource keys keeps the table valid. */
  lemma PutTableValid(t: Dict<string, Entry>, jid: string, e: Entry)
    requires TableValid(t) && DistinctKeys(e.presence)
    ensures TableValid(Put(t, jid, e))
  {
    PutDistinct(t, jid, e);
    var r := Put(t, jid, e);
    forall i | 0 <= i < |r| ensures DistinctKeys(r[i].1.presence) {
      var m := PutEntry(t, jid, e, i);
    }
  }

  /** Every entry of `Put(t, k, v)` is v or an entry of t. */
  lemma {:induction false} PutEntry<V>(t: Dict<string, V>, k: string, v: V, i: nat) returns (m: int)
    requires i < |Put(t, k, v)|
    ensures Put(t, k, v)[i] == (k, v) || (0 <= m < |t| && Put(t, k, v)[i] == t[m])
  {
    m := -1;
    if t != [] && t[0].0 != k {
      if i == 0 {
        m := 0;
      } else {
        m := PutEntry(t[1..], k, v, i - 1);
        m := m + 1;
      }
    } else if t != [] && i > 0 {
      m := i;
    }
  }
}
