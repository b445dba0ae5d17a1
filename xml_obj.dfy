/** The parsed-element type (`XMPPHP_XMLObj`) and the PHP values that event
    payloads are made of. XMLObj.php is not part of this model; `HasSub` and
    `Sub` are modelled on the reading that they look for the first child with
    the given name and, when a namespace is supplied, that namespace. */
module XmlObj {
  import opened Util
  import opened Dict

  /** One element: local name, resolved namespace ("" for none), attributes in
      document order, children in document order, and its character data. */
  datatype Element = Element(name: string, ns: string, attrs: Dict<string, string>,
                             subs: seq<Element>, data: string)

  /** A PHP value as carried by an event payload: strings, integers, an element,
      or an (ordered) array. */
  datatype Value = Null | Str(s: string) | Int(i: int) | Xml(e: Element) | Arr(entries: Dict<string, Value>)

  /** `$e->attrs[$k]`, a missing attribute read as null (""). */
  function Attr(e: Element, k: string): string {
    match Get(e.attrs, k)
    case Some(v) => v
    case None => ""
  }

  /** `isset($e->attrs[$k])`. */
  predicate HasAttr(e: Element, k: string) {
    HasKey(e.attrs, k)
  }

  /** A child fits a lookup by name and optional namespace ("" means any). */
  predicate Fits(c: Element, name: string, ns: string) {
    c.name == name && (ns == "" || c.ns == ns)
  }

  /** The position of the first child that fits, or -1. */
  function FirstSubIndex(subs: seq<Element>, name: string, ns: string): (i: int)
    ensures -1 <= i < |subs|
    ensures i >= 0 ==> Fits(subs[i], name, ns) && forall j :: 0 <= j < i ==> !Fits(subs[j], name, ns)
    ensures i == -1 ==> forall j :: 0 <= j < |subs| ==> !Fits(subs[j], name, ns)
  {
    if subs == [] then -1
    else if Fits(subs[0], name, ns) then 0
    else
      var i := FirstSubIndex(subs[1..], name, ns);
      if i == -1 then -1 else i + 1
  }

  /** `$e->hasSub($name, $ns)`. */
  predicate HasSub(e: Element, name: string, ns: string) {
    FirstSubIndex(e.subs, name, ns) >= 0
  }

  /** `$e->sub($name, $ns)`: the first fitting child, or null. */
  function Sub(e: Element, name: string, ns: string): (r: Option<Element>)
    ensures r.Some? <==> HasSub(e, name, ns)
    ensures r.Some? ==> r.value in e.subs && Fits(r.value, name, ns)
    ensures r.Some? ==> exists i :: 0 <= i < |e.subs| && e.subs[i] == r.value
                                    && forall j :: 0 <= j < i ==> !Fits(e.subs[j], name, ns)
  {
    var i := FirstSubIndex(e.subs, name, ns);
    if i >= 0 then Some(e.subs[i]) else None
  }

  /** `$e->sub($name)->data`, where a missing child reads as null (""). */
  function SubData(e: Element, name: string): string {
    match Sub(e, name, "")
    case Some(c) => c.data
    case None => ""
  }

  /** `$e->sub($name)->subs`, where a missing child reads as no children. */
  function SubChildren(e: Element, name: string): seq<Element> {
    match Sub(e, name, "")
    case Some(c) => c.subs
    case None => []
  }

  /** The child at position i is the one `sub` finds when it is the first of its name. */
  lemma SubAt(e: Element, name: string, i: nat)
    requires i < |e.subs| && e.subs[i].name == name
    requires forall j :: 0 <= j < i ==> e.subs[j].name != name
    ensures HasSub(e, name, "") && Sub(e, name, "") == Some(e.subs[i])
  {
  }

  /** No child of that name: `sub` finds nothing. */
  lemma NoSub(e: Element, name: string)
    requires forall j :: 0 <= j < |e.subs| ==> e.subs[j].name != name
    ensures !HasSub(e, name, "")
  {
  }
}
