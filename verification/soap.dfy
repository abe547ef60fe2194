/**
 * The SOAP envelope as the plugin sees it: a tree of elements, each with a
 * namespace, a local name, a namespace prefix, optional text and children.
 * `find('{ns}name')` is the first direct child with that namespace and local
 * name. This module holds the pure specification of what the plugin's
 * `ingress` and `egress` hooks do to the envelope's children.
 */
module Soap {
  import opened Common

  const SoapEnvNs: string := "http://schemas.xmlsoap.org/soap/envelope/"
  const XRoadNs: string := "http://x-road.eu/xsd/xroad.xsd"
  const IdentifiersNs: string := "http://x-road.eu/xsd/identifiers"
  const WsaPrefix: string := "wsa"

  datatype Element = Element(
    ns: string,
    name: string,
    prefix: Option<string>,
    text: Option<string>,
    children: seq<Element>)

  predicate HasTag(e: Element, ns: string, name: string)
  {
    e.ns == ns && e.name == name
  }

  predicate IsWsa(e: Element)
  {
    e.prefix == Some(WsaPrefix)
  }

  /** Index of the first child with the given tag, as `find` locates it. */
  function FindFirst(kids: seq<Element>, ns: string, name: string): (r: Option<nat>)
    ensures r.Some? ==> r.value < |kids| && HasTag(kids[r.value], ns, name)
    ensures r.Some? ==> forall j :: 0 <= j < r.value ==> !HasTag(kids[j], ns, name)
    ensures r.None? <==> forall j :: 0 <= j < |kids| ==> !HasTag(kids[j], ns, name)
  {
    if kids == [] then None
    else if HasTag(kids[0], ns, name) then Some(0)
    else match FindFirst(kids[1..], ns, name)
      case None => None
      case Some(i) => Some(i + 1)
  }

  /** `parent.find('{ns}name')`. */
  function Child(parent: Element, ns: string, name: string): (r: Option<Element>)
    ensures r.Some? <==> FindFirst(parent.children, ns, name).Some?
    ensures r.Some? ==> HasTag(r.value, ns, name)
    ensures r.Some? ==> r.value == parent.children[FindFirst(parent.children, ns, name).value]
  {
    match FindFirst(parent.children, ns, name)
    case None => None
    case Some(i) => Some(parent.children[i])
  }

  /** Position of the SOAP `Header` among the envelope's children. */
  function HeaderIndex(children: seq<Element>): Option<nat>
  {
    FindFirst(children, SoapEnvNs, "Header")
  }

  /** `envelope.find('{soap-env}Header')`. */
  function Header(children: seq<Element>): (r: Option<Element>)
    ensures r.Some? <==> HeaderIndex(children).Some?
    ensures r.Some? ==> HasTag(r.value, SoapEnvNs, "Header")
    ensures r.Some? ==> r.value == children[HeaderIndex(children).value]
  {
    match HeaderIndex(children)
    case None => None
    case Some(h) => Some(children[h])
  }

  /** The envelope after the header at `h` has been given new children. */
  function ReplaceKids(children: seq<Element>, h: nat, kids: seq<Element>): (r: seq<Element>)
    requires h < |children|
    ensures |r| == |children| && r[h].children == kids
  {
    children[h := children[h].(children := kids)]
  }

  /** Replacing the header's children again overrides the first replacement. */
  lemma ReplaceKidsTwice(children: seq<Element>, h: nat, a: seq<Element>, b: seq<Element>)
    requires h < |children|
    ensures ReplaceKids(ReplaceKids(children, h, a), h, b) == ReplaceKids(children, h, b)
    ensures ReplaceKids(children, h, children[h].children) == children
  {
  }

  /** `parent.remove(kids[i])`. */
  function RemoveAt(kids: seq<Element>, i: nat): (r: seq<Element>)
    requires i < |kids|
    ensures |r| == |kids| - 1
    ensures forall j :: 0 <= j < i ==> r[j] == kids[j]
    ensures forall j :: i <= j < |r| ==> r[j] == kids[j + 1]
  {
    kids[..i] + kids[i + 1..]
  }

  /** Two child lists whose elements agree position by position on their tags. */
  predicate SameTags(a: seq<Element>, b: seq<Element>)
  {
    |a| == |b| && forall i :: 0 <= i < |a| ==> a[i].ns == b[i].ns && a[i].name == b[i].name
  }

  /** Lookups depend on tags only: changing text or children moves no match. */
  lemma {:induction false} FindFirstSameTags(a: seq<Element>, b: seq<Element>, ns: string, name: string)
    requires SameTags(a, b)
    ensures FindFirst(a, ns, name) == FindFirst(b, ns, name)
  {
    if a != [] {
      FindFirstSameTags(a[1..], b[1..], ns, name);
    }
  }

  /** Rewriting the header's children leaves the header where `find` finds it. */
  lemma HeaderAfterReplace(children: seq<Element>, kids: seq<Element>)
    requires HeaderIndex(children).Some?
    ensures var out := ReplaceKids(children, HeaderIndex(children).value, kids);
            HeaderIndex(out) == HeaderIndex(children) && Header(out).Some? && Header(out).value.children == kids
  {
    FindFirstSameTags(children, ReplaceKids(children, HeaderIndex(children).value, kids), SoapEnvNs, "Header");
  }

  // ---------------------------------------------------------------------
  // ingress: drop the first requestHash, protocolVersion and issue.

  const IngressNames: seq<string> := ["requestHash", "protocolVersion", "issue"]

  /** An X-Road element that ingress may remove. */
  predicate IsIngressTarget(e: Element)
  {
    e.ns == XRoadNs && (e.name == IngressNames[0] || e.name == IngressNames[1] || e.name == IngressNames[2])
  }

  /** `el = header.find(...); if el is not None: header.remove(el)`. */
  function RemoveFirst(kids: seq<Element>, name: string): (r: seq<Element>)
    ensures FindFirst(kids, XRoadNs, name).None? ==> r == kids
    ensures FindFirst(kids, XRoadNs, name).Some? ==>
              var i := FindFirst(kids, XRoadNs, name).value;
              |r| == |kids| - 1 && r[..i] == kids[..i] && r[i..] == kids[i + 1..]
  {
    match FindFirst(kids, XRoadNs, name)
    case None => kids
    case Some(i) => RemoveAt(kids, i)
  }

  /** RemoveFirst for each name in turn. */
  function StripAll(kids: seq<Element>, names: seq<string>): (r: seq<Element>)
    ensures |kids| - |names| <= |r| <= |kids|
    decreases |names|
  {
    if names == [] then kids
    else RemoveFirst(StripAll(kids, names[..|names| - 1]), names[|names| - 1])
  }

  /** The header children after ingress. */
  function Sanitize(kids: seq<Element>): (r: seq<Element>)
    ensures |kids| - 3 <= |r| <= |kids|
  {
    StripAll(kids, IngressNames)
  }

  /** The envelope's children after ingress; without a header it raises and nothing changes. */
  function IngressEffect(children: seq<Element>): (r: seq<Element>)
    ensures |r| == |children|
    ensures HeaderIndex(children).None? ==> r == children
    ensures HeaderIndex(children).Some? ==>
              var h := HeaderIndex(children).value;
              && (forall j :: 0 <= j < |r| && j != h ==> r[j] == children[j])
              && r[h] == children[h].(children := Sanitize(children[h].children))
  {
    match HeaderIndex(children)
    case None => children
    case Some(h) => ReplaceKids(children, h, Sanitize(children[h].children))
  }

  /** Number of children with the given tag. */
  function Count(kids: seq<Element>, ns: string, name: string): nat
  {
    if kids == [] then 0 else (if HasTag(kids[0], ns, name) then 1 else 0) + Count(kids[1..], ns, name)
  }

  lemma {:induction false} CountAppend(a: seq<Element>, b: seq<Element>, ns: string, name: string)
    ensures Count(a + b, ns, name) == Count(a, ns, name) + Count(b, ns, name)
  {
    if a != [] {
      assert (a + b)[0] == a[0] && (a + b)[1..] == a[1..] + b;
      CountAppend(a[1..], b, ns, name);
    } else {
      assert a + b == b;
    }
  }

  /** No child carries the tag exactly when `find` finds none. */
  lemma {:induction false} CountZero(kids: seq<Element>, ns: string, name: string)
    ensures Count(kids, ns, name) == 0 <==> FindFirst(kids, ns, name).None?
  {
    if kids != [] {
      CountZero(kids[1..], ns, name);
    }
  }

  lemma CountRemoveAt(kids: seq<Element>, i: nat, ns: string, name: string)
    requires i < |kids|
    ensures Count(RemoveAt(kids, i), ns, name) == Count(kids, ns, name) - (if HasTag(kids[i], ns, name) then 1 else 0)
  {
    assert kids == kids[..i] + ([kids[i]] + kids[i + 1..]);
    CountAppend(kids[..i], [kids[i]] + kids[i + 1..], ns, name);
    CountAppend([kids[i]], kids[i + 1..], ns, name);
    CountAppend(kids[..i], kids[i + 1..], ns, name);
  }

  function Decrement(n: nat): nat
  {
    if n == 0 then 0 else n - 1
  }

  predicate DistinctNames(names: seq<string>)
  {
    forall i, j :: 0 <= i < j < |names| ==> names[i] != names[j]
  }

  /**
   * Stripping distinct names removes one occurrence (the first) of each
   * listed X-Road name that is present, and no other element.
   */
  lemma {:induction false} StripAllCount(kids: seq<Element>, names: seq<string>, ns: string, name: string)
    requires DistinctNames(names)
    ensures Count(StripAll(kids, names), ns, name) ==
            if ns == XRoadNs && name in names then Decrement(Count(kids, ns, name)) else Count(kids, ns, name)
  {
    if names != [] {
      var init, last := names[..|names| - 1], names[|names| - 1];
      var s := StripAll(kids, init);
      assert names == init + [last];
      StripAllCount(kids, init, ns, name);
      StripAllCount(kids, init, XRoadNs, last);
      match FindFirst(s, XRoadNs, last)
      case None =>
        CountZero(s, XRoadNs, last);
      case Some(i) =>
        CountZero(s, XRoadNs, last);
        CountRemoveAt(s, i, ns, name);
    }
  }

  /**
   * Ingress removes at most one element for each of requestHash,
   * protocolVersion and issue and leaves every other tag's count alone.
   */
  lemma SanitizeCount(kids: seq<Element>, ns: string, name: string)
    ensures Count(Sanitize(kids), ns, name) ==
            if ns == XRoadNs && name in IngressNames then Decrement(Count(kids, ns, name)) else Count(kids, ns, name)
  {
    StripAllCount(kids, IngressNames, ns, name);
  }

  /** The children ingress never touches, in order. */
  function Others(kids: seq<Element>): seq<Element>
  {
    if kids == [] then [] else (if IsIngressTarget(kids[0]) then [] else [kids[0]]) + Others(kids[1..])
  }

  /** Removing an ingress target leaves the other children as they were. */
  lemma {:induction false} OthersRemoveTarget(kids: seq<Element>, i: nat)
    requires i < |kids| && IsIngressTarget(kids[i])
    ensures Others(RemoveAt(kids, i)) == Others(kids)
  {
    if i == 0 {
      assert RemoveAt(kids, 0) == kids[1..];
    } else {
      var rest := RemoveAt(kids[1..], i - 1);
      assert RemoveAt(kids, i) == [kids[0]] + rest;
      OthersRemoveTarget(kids[1..], i - 1);
      assert ([kids[0]] + rest)[1..] == rest;
    }
  }

  lemma {:induction false} StripAllKeepsOthers(kids: seq<Element>, names: seq<string>)
    requires forall i :: 0 <= i < |names| ==> names[i] in IngressNames
    ensures Others(StripAll(kids, names)) == Others(kids)
  {
    if names != [] {
      var init, last := names[..|names| - 1], names[|names| - 1];
      var s := StripAll(kids, init);
      assert StripAll(kids, names) == RemoveFirst(s, last);
      StripAllKeepsOthers(kids, init);
      match FindFirst(s, XRoadNs, last)
      case None =>
      case Some(i) =>
        assert last in IngressNames;
        OthersRemoveTarget(s, i);
    }
  }

  /** Every child that is not an ingress target survives ingress, in its original order. */
  lemma SanitizeKeepsOthers(kids: seq<Element>)
    ensures Others(Sanitize(kids)) == Others(kids)
  {
    StripAllKeepsOthers(kids, IngressNames);
  }

  lemma {:induction false} StripAllNoTargets(kids: seq<Element>, names: seq<string>)
    requires forall i :: 0 <= i < |names| ==> names[i] in IngressNames
    requires forall j :: 0 <= j < |kids| ==> !IsIngressTarget(kids[j])
    ensures StripAll(kids, names) == kids
  {
    if names != [] {
      StripAllNoTargets(kids, names[..|names| - 1]);
      assert names[|names| - 1] in IngressNames;
    }
  }

  /** A header holding none of the three elements passes ingress unchanged. */
  lemma SanitizeNoTargets(kids: seq<Element>)
    requires forall j :: 0 <= j < |kids| ==> !IsIngressTarget(kids[j])
    ensures Sanitize(kids) == kids
  {
    StripAllNoTargets(kids, IngressNames);
  }

  /** When each of the three names occurs at most once, a second ingress changes nothing. */
  lemma SanitizeIdempotent(kids: seq<Element>)
    requires forall n :: n in IngressNames ==> Count(kids, XRoadNs, n) <= 1
    ensures Sanitize(Sanitize(kids)) == Sanitize(kids)
  {
    var s := Sanitize(kids);
    forall j | 0 <= j < |s|
      ensures !IsIngressTarget(s[j])
    {
      if IsIngressTarget(s[j]) {
        SanitizeCount(kids, XRoadNs, s[j].name);
        CountZero(s, XRoadNs, s[j].name);
        assert false;
      }
    }
    SanitizeNoTargets(s);
  }

  /**
   * Without that condition a second ingress can change the header: of two
   * requestHash elements, each ingress removes one.
   */
  lemma SanitizeTwiceRemovesTwo()
    ensures var rh := Element(XRoadNs, IngressNames[0], None, None, []);
            Sanitize(Sanitize([rh, rh])) != Sanitize([rh, rh])
  {
    var rh := Element(XRoadNs, IngressNames[0], None, None, []);
    var once := Sanitize([rh, rh]);
    assert HasTag(rh, XRoadNs, IngressNames[0]);
    assert Count([], XRoadNs, IngressNames[0]) == 0;
    assert [rh][1..] == [];
    assert Count([rh], XRoadNs, IngressNames[0]) == 1;
    assert [rh, rh][1..] == [rh];
    assert Count([rh, rh], XRoadNs, IngressNames[0]) == 2;
    SanitizeCount([rh, rh], XRoadNs, IngressNames[0]);
    SanitizeCount(once, XRoadNs, IngressNames[0]);
  }

  // ---------------------------------------------------------------------
  // egress: stamp the message id and service code, drop WS-Addressing.

  /** The exception a hook raises when `find` returns None and the code uses it. */
  datatype HookError = MissingHeader | MissingId | MissingService | MissingServiceCode

  /** The envelope's children after a hook, and the exception it raised, if any. */
  datatype Effect = Effect(children: seq<Element>, error: Option<HookError>)

  function SetText(e: Element, text: string): Element
  {
    e.(text := Some(text))
  }

  /** The header children left by the loop over `header.getchildren()` that removes `wsa` ones. */
  function DropWsa(kids: seq<Element>): (r: seq<Element>)
    ensures |r| <= |kids|
    ensures forall j :: 0 <= j < |r| ==> !IsWsa(r[j])
  {
    if kids == [] then [] else (if IsWsa(kids[0]) then [] else [kids[0]]) + DropWsa(kids[1..])
  }

  /** The filter keeps exactly the children whose prefix is not `wsa`. */
  lemma {:induction false} DropWsaMembers(kids: seq<Element>)
    ensures forall e :: e in DropWsa(kids) <==> e in kids && !IsWsa(e)
  {
    if kids != [] {
      DropWsaMembers(kids[1..]);
      assert kids == [kids[0]] + kids[1..];
    }
  }

  /** Filtering distributes over concatenation, so the kept children stay in order. */
  lemma {:induction false} DropWsaAppend(a: seq<Element>, b: seq<Element>)
    ensures DropWsa(a + b) == DropWsa(a) + DropWsa(b)
  {
    if a != [] {
      assert (a + b)[0] == a[0] && (a + b)[1..] == a[1..] + b;
      DropWsaAppend(a[1..], b);
    } else {
      assert a + b == b;
    }
  }

  /** Filtering a list extended by one child. */
  lemma DropWsaSnoc(kids: seq<Element>, e: Element)
    ensures DropWsa(kids + [e]) == DropWsa(kids) + (if IsWsa(e) then [] else [e])
  {
    DropWsaAppend(kids, [e]);
    assert [e][1..] == [];
  }

  /** A child list with no `wsa` child is kept as it is. */
  lemma {:induction false} DropWsaNone(kids: seq<Element>)
    requires forall j :: 0 <= j < |kids| ==> !IsWsa(kids[j])
    ensures DropWsa(kids) == kids
  {
    if kids != [] {
      DropWsaNone(kids[1..]);
    }
  }

  /** The first match of a tag survives the filter if it is not `wsa`, and is still the first match. */
  lemma {:induction false} FindFirstDropWsa(kids: seq<Element>, ns: string, name: string)
    requires FindFirst(kids, ns, name).Some?
    requires !IsWsa(kids[FindFirst(kids, ns, name).value])
    ensures var r := FindFirst(DropWsa(kids), ns, name);
            r.Some? && DropWsa(kids)[r.value] == kids[FindFirst(kids, ns, name).value]
  {
    var d := DropWsa(kids[1..]);
    assert DropWsa(kids) == (if IsWsa(kids[0]) then [] else [kids[0]]) + d;
    if HasTag(kids[0], ns, name) {
      assert FindFirst(DropWsa(kids), ns, name) == Some(0);
    } else {
      FindFirstDropWsa(kids[1..], ns, name);
      var r := FindFirst(d, ns, name).value;
      if IsWsa(kids[0]) {
        assert DropWsa(kids) == d;
      } else {
        assert DropWsa(kids)[0] == kids[0];
        assert FindFirst(DropWsa(kids), ns, name) == Some(r + 1);
      }
    }
  }

  /** Header, id, service and serviceCode are all there: egress completes. */
  predicate Stampable(children: seq<Element>)
  {
    && Header(children).Some?
    && Child(Header(children).value, XRoadNs, "id").Some?
    && Child(Header(children).value, XRoadNs, "service").Some?
    && Child(Child(Header(children).value, XRoadNs, "service").value, IdentifiersNs, "serviceCode").Some?
  }

  /** `y` is `x` with at most its own text rewritten. */
  predicate TextOnly(x: Element, y: Element)
  {
    y == x.(text := y.text)
  }

  /**
   * `y` is `x` as egress may have left it: an element with only its text
   * rewritten, or a `service` with only the texts of its children rewritten.
   */
  predicate Corresponds(x: Element, y: Element)
  {
    || TextOnly(x, y)
    || (&& HasTag(x, XRoadNs, "service") && y == x.(children := y.children)
        && |y.children| == |x.children|
        && forall j :: 0 <= j < |x.children| ==> TextOnly(x.children[j], y.children[j]))
  }

  /** `header.find('{xroad}id').text = token` on the header's children. */
  function WriteId(kids: seq<Element>, token: string): (r: seq<Element>)
    requires FindFirst(kids, XRoadNs, "id").Some?
    ensures SameTags(kids, r)
    ensures forall j :: 0 <= j < |r| ==> r[j].prefix == kids[j].prefix && Corresponds(kids[j], r[j])
    ensures FindFirst(r, XRoadNs, "id") == FindFirst(kids, XRoadNs, "id")
    ensures FindFirst(r, XRoadNs, "service") == FindFirst(kids, XRoadNs, "service")
    ensures var i := FindFirst(kids, XRoadNs, "id").value;
            && r[i] == kids[i].(text := Some(token))
            && forall j :: 0 <= j < |r| && j != i ==> r[j] == kids[j]
  {
    var i := FindFirst(kids, XRoadNs, "id").value;
    var r := kids[i := SetText(kids[i], token)];
    FindFirstSameTags(kids, r, XRoadNs, "id");
    FindFirstSameTags(kids, r, XRoadNs, "service");
    r
  }

  /** The header's first `service` has a `serviceCode` child. */
  predicate HasServiceCode(kids: seq<Element>)
  {
    && FindFirst(kids, XRoadNs, "service").Some?
    && FindFirst(kids[FindFirst(kids, XRoadNs, "service").value].children, IdentifiersNs, "serviceCode").Some?
  }

  /** `service.find('{identifiers}serviceCode').text = operationName` on the header's children. */
  function WriteServiceCode(kids: seq<Element>, operationName: string): (r: seq<Element>)
    requires HasServiceCode(kids)
    ensures SameTags(kids, r)
    ensures forall j :: 0 <= j < |r| ==> r[j].prefix == kids[j].prefix && Corresponds(kids[j], r[j])
    ensures FindFirst(r, XRoadNs, "id") == FindFirst(kids, XRoadNs, "id")
    ensures FindFirst(r, XRoadNs, "service") == FindFirst(kids, XRoadNs, "service")
    ensures var s := FindFirst(kids, XRoadNs, "service").value;
            var c := FindFirst(kids[s].children, IdentifiersNs, "serviceCode").value;
            && (forall j :: 0 <= j < |r| && j != s ==> r[j] == kids[j])
            && r[s] == kids[s].(children := kids[s].children[c := kids[s].children[c].(text := Some(operationName))])
            && Child(r[s], IdentifiersNs, "serviceCode").Some?
            && Child(r[s], IdentifiersNs, "serviceCode").value.text == Some(operationName)
  {
    var s := FindFirst(kids, XRoadNs, "service").value;
    var codes := kids[s].children;
    var c := FindFirst(codes, IdentifiersNs, "serviceCode").value;
    var codes' := codes[c := SetText(codes[c], operationName)];
    FindFirstSameTags(codes, codes', IdentifiersNs, "serviceCode");
    var r := kids[s := kids[s].(children := codes')];
    FindFirstSameTags(kids, r, XRoadNs, "id");
    FindFirstSameTags(kids, r, XRoadNs, "service");
    r
  }

  /**
   * The envelope's children after egress. The id text is written before the
   * service element is looked up, so a missing service or serviceCode leaves
   * the new id in place; the `wsa` children go only when both are found.
   */
  function EgressEffect(children: seq<Element>, token: string, operationName: string): (r: Effect)
    ensures r.error.None? <==> Stampable(children)
    ensures r.error == Some(MissingHeader) <==> Header(children).None?
    ensures r.error in {Some(MissingHeader), Some(MissingId)} ==> r.children == children
  {
    match HeaderIndex(children)
    case None => Effect(children, Some(MissingHeader))
    case Some(h) =>
      var kids := children[h].children;
      if FindFirst(kids, XRoadNs, "id").None? then Effect(children, Some(MissingId))
      else
        var stamped := WriteId(kids, token);
        if FindFirst(stamped, XRoadNs, "service").None? then
          Effect(ReplaceKids(children, h, stamped), Some(MissingService))
        else if !HasServiceCode(stamped) then
          Effect(ReplaceKids(children, h, stamped), Some(MissingServiceCode))
        else
          Effect(ReplaceKids(children, h, DropWsa(WriteServiceCode(stamped, operationName))), None)
  }

  /**
   * After a complete egress the header is still where it was; its first
   * X-Road `id` carries the token and the `serviceCode` of its first
   * `service` carries the operation name, unless that element was itself a
   * `wsa` one and went with the others.
   */
  lemma EgressStamps(children: seq<Element>, token: string, operationName: string)
    requires Stampable(children)
    ensures var out := EgressEffect(children, token, operationName).children;
            && Header(out).Some?
            && (!IsWsa(Child(Header(children).value, XRoadNs, "id").value) ==>
                  && Child(Header(out).value, XRoadNs, "id").Some?
                  && Child(Header(out).value, XRoadNs, "id").value.text == Some(token))
            && (!IsWsa(Child(Header(children).value, XRoadNs, "service").value) ==>
                  && Child(Header(out).value, XRoadNs, "service").Some?
                  && Child(Child(Header(out).value, XRoadNs, "service").value, IdentifiersNs, "serviceCode").Some?
                  && Child(Child(Header(out).value, XRoadNs, "service").value, IdentifiersNs, "serviceCode").value.text
                     == Some(operationName))
  {
    var h := HeaderIndex(children).value;
    var kids := children[h].children;
    var stamped := WriteId(kids, token);
    var written := WriteServiceCode(stamped, operationName);
    assert EgressEffect(children, token, operationName).children == ReplaceKids(children, h, DropWsa(written));
    HeaderAfterReplace(children, DropWsa(written));
    var i := FindFirst(kids, XRoadNs, "id").value;
    var s := FindFirst(kids, XRoadNs, "service").value;
    if !IsWsa(kids[i]) {
      FindFirstDropWsa(written, XRoadNs, "id");
    }
    if !IsWsa(kids[s]) {
      FindFirstDropWsa(written, XRoadNs, "service");
    }
  }

  lemma {:induction false} DropWsaCorresponds(a: seq<Element>, b: seq<Element>)
    requires |a| == |b| && forall i :: 0 <= i < |a| ==> Corresponds(a[i], b[i])
    ensures |DropWsa(a)| == |DropWsa(b)|
    ensures forall j :: 0 <= j < |DropWsa(a)| ==> Corresponds(DropWsa(a)[j], DropWsa(b)[j])
  {
    if a != [] {
      DropWsaCorresponds(a[1..], b[1..]);
      assert DropWsa(a) == (if IsWsa(a[0]) then [] else [a[0]]) + DropWsa(a[1..]);
      assert DropWsa(b) == (if IsWsa(b[0]) then [] else [b[0]]) + DropWsa(b[1..]);
    }
  }

  /** A complete egress changes only the header, and leaves no `wsa` child in it. */
  lemma EgressDropsWsa(children: seq<Element>, token: string, operationName: string)
    requires Stampable(children)
    ensures var out := EgressEffect(children, token, operationName).children;
            && |out| == |children|
            && (forall j :: 0 <= j < |out| && j != HeaderIndex(children).value ==> out[j] == children[j])
            && Header(out).Some?
            && (forall j :: 0 <= j < |Header(out).value.children| ==> !IsWsa(Header(out).value.children[j]))
  {
    var h := HeaderIndex(children).value;
    var written := WriteServiceCode(WriteId(children[h].children, token), operationName);
    assert EgressEffect(children, token, operationName).children == ReplaceKids(children, h, DropWsa(written));
    HeaderAfterReplace(children, DropWsa(written));
  }

  /**
   * The header children that survive a complete egress are the non-`wsa`
   * ones, in their original order, with the same tags and prefixes; only an
   * id or service element may have new text.
   */
  lemma EgressKeepsOrder(children: seq<Element>, token: string, operationName: string)
    requires Stampable(children)
    ensures var out := EgressEffect(children, token, operationName).children;
            && Header(out).Some?
            && |Header(out).value.children| == |DropWsa(Header(children).value.children)|
            && (forall j :: 0 <= j < |Header(out).value.children| ==>
                  Corresponds(DropWsa(Header(children).value.children)[j], Header(out).value.children[j]))
  {
    var h := HeaderIndex(children).value;
    var kids := children[h].children;
    var written := WriteServiceCode(WriteId(kids, token), operationName);
    assert EgressEffect(children, token, operationName).children == ReplaceKids(children, h, DropWsa(written));
    HeaderAfterReplace(children, DropWsa(written));
    DropWsaCorresponds(kids, written);
  }

  /**
   * Egress that raises for a missing service or serviceCode has already
   * written the token into the first id and removed nothing.
   */
  lemma EgressFailsAfterId(children: seq<Element>, token: string, operationName: string)
    requires EgressEffect(children, token, operationName).error in {Some(MissingService), Some(MissingServiceCode)}
    ensures var out := EgressEffect(children, token, operationName).children;
            && Header(children).Some? && Header(out).Some?
            && |Header(out).value.children| == |Header(children).value.children|
            && Child(Header(out).value, XRoadNs, "id").Some?
            && Child(Header(out).value, XRoadNs, "id").value.text == Some(token)
  {
    var h := HeaderIndex(children).value;
    var stamped := WriteId(children[h].children, token);
    assert EgressEffect(children, token, operationName).children == ReplaceKids(children, h, stamped);
    HeaderAfterReplace(children, stamped);
  }
}
