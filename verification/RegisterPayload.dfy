/** The payload of a registration, in the link format of RFC 6690. */
module RegisterPayload {
  // objects.c prints the objects of a client and their instances, registration.c reads them on the server.

  import opened Core
  import opened DecimalText
  import SortedList
  import U = Uri

  /** One link of the payload: an object, or an instance of an object. */
  datatype Link = Link(objectId: uint16, instanceId: Option<uint16>)

  /** An object of the client, with its instance list. */
  datatype Object = Object(id: uint16, instances: seq<uint16>)

  const RESOURCE_TYPE := ">;rt=\"oma.lwm2m\","

  // ---------- the printer, prv_getRegisterPayload ----------

  function LinkText(alt: string, l: Link): string {
    "<" + alt + "/" + ToText(l.objectId) + (if l.instanceId.Some? then "/" + ToText(l.instanceId.value) else "") + ">"
  }

  function InstanceLinks(id: uint16, instances: seq<uint16>): seq<Link> {
    if instances == [] then [] else [Link(id, Some(instances[0]))] + InstanceLinks(id, instances[1..])
  }

  function ObjectLinks(o: Object): seq<Link> {
    if o.id == SECURITY_OBJECT then []
    else if o.instances == [] then [Link(o.id, None)]
    else InstanceLinks(o.id, o.instances)
  }

  function AllLinks(objects: seq<Object>): seq<Link> {
    if objects == [] then [] else ObjectLinks(objects[0]) + AllLinks(objects[1..])
  }

  function LinksText(alt: string, ls: seq<Link>): string {
    if ls == [] then "" else LinkText(alt, ls[0]) + "," + LinksText(alt, ls[1..])
  }

  function AltText(altPath: Option<string>): string {
    if altPath.None? || altPath.value == "" then "" else "<" + altPath.value + RESOURCE_TYPE
  }

  function Prefix(altPath: Option<string>): string { if altPath.Some? then altPath.value else "" }

  /** All the links, each with a comma behind it. */
  function FullText(altPath: Option<string>, objects: seq<Object>): string {
    AltText(altPath) + LinksText(Prefix(altPath), AllLinks(objects))
  }

  /** prv_getRegisterPayload: the text without its last comma, if all of it fits the buffer; the comma may be
      the character that snprintf drops. */
  function Print(altPath: Option<string>, objects: seq<Object>, length: nat): string {
    var t := FullText(altPath, objects);
    if 0 < |t| <= length then t[..|t| - 1] else ""
  }

  // ---------- the parser, prv_decodeRegisterPayload ----------

  function SkipSpaces(s: string): (t: string)
    ensures |t| <= |s|
  {
    if s != "" && s[0] == ' ' then SkipSpaces(s[1..]) else s
  }

  /** The text up to the first of two characters. */
  function UpTo(s: string, a: char, b: char): (t: string)
    ensures |t| <= |s|
  {
    if s == "" || s[0] == a || s[0] == b then "" else [s[0]] + UpTo(s[1..], a, b)
  }

  /** strncmp over the first n characters, for a text that ends before n when n counts characters behind a NUL. */
  predicate Begins(s: string, alt: string, n: nat)
    requires n < |s|
  {
    if n <= |alt| then s[..n] == alt[..n] else s[..|alt|] == alt && s[|alt|] == NUL
  }

  /** prv_getId */
  function GetId(e: string, altPath: Option<string>, altPathLen: nat): Option<Link> {
    if |e| < 2 || e[0] != '<' || e[|e| - 1] != '>' then None
    else
      var data := e[1..|e| - 1];
      if altPath.Some? && (|data| <= altPathLen || !Begins(data, altPath.value, altPathLen)) then None
      else GetNumbers(if altPath.Some? then data[altPathLen..] else data)
  }

  function Unslashed(data: string): string { if data != "" && data[0] == '/' then data[1..] else data }

  /** The numbers between the brackets. No number at all counts as 0. */
  function GetNumbers(data: string): Option<Link> {
    var path := Unslashed(data);
    var first := UpTo(path, '/', ' ');
    var id := if path != "" && path[0] == '/' then -1 else U.Number(first);
    if id < 0 || id >= MAX_ID then None
    else Some(Link(id, if |first| == |path| then None else InstanceOf(path[|first| + 1..])))
  }

  function InstanceOf(s: string): Option<uint16> {
    var second := UpTo(s, ' ', ' ');
    if second != "" && 0 <= U.Number(second) < MAX_ID then Some(U.Number(second)) else None
  }

  /** The text from k on, if there is any. */
  function Behind(s: string, k: nat): (t: string)
    ensures |t| <= |s| && (k > 0 && s != "" ==> |t| < |s|)
  {
    if k < |s| then s[k..] else ""
  }

  /** The links of a payload, in their order. */
  function Links(s: string, altPath: Option<string>, altPathLen: nat): seq<Link>
    decreases |s|
  {
    var t := SkipSpaces(s);
    if t == "" then []
    else
      var e := UpTo(t, ',', ',');
      var l := GetId(e, altPath, altPathLen);
      (if l.Some? then [l.value] else []) + Links(Behind(t, |e| + 1), altPath, altPathLen)
  }

  // ---------- the object list ----------

  function ObjectId(o: Object): uint16 { o.id }

  function Itself(id: uint16): uint16 { id }

  function PlaceOf(objects: seq<Object>, id: uint16): (i: nat)
    ensures i <= |objects| && (i < |objects| ==> objects[i].id == id)
    ensures forall j | 0 <= j < i :: objects[j].id != id
  {
    if objects == [] || objects[0].id == id then 0 else 1 + PlaceOf(objects[1..], id)
  }

  function AddInstance(o: Object, inst: uint16): Object {
    if SortedList.Find<uint16>(o.instances, inst, Itself).Some? then o
    else o.(instances := SortedList.Insert<uint16>(o.instances, inst, Itself))
  }

  /** A link read is an object, found or new, and an instance, found or new. */
  function AddLink(objects: seq<Object>, l: Link): seq<Object> {
    var objects1 := if SortedList.Find<Object>(objects, l.objectId, ObjectId).Some? then objects
                    else SortedList.Insert<Object>(objects, Object(l.objectId, []), ObjectId);
    var i := PlaceOf(objects1, l.objectId);
    if l.instanceId.None? || i == |objects1| then objects1
    else objects1[i := AddInstance(objects1[i], l.instanceId.value)]
  }

  function AddLinks(objects: seq<Object>, ls: seq<Link>): seq<Object>
    decreases |ls|
  {
    if ls == [] then objects else AddLinks(AddLink(objects, ls[0]), ls[1..])
  }

  predicate IsPathChar(c: char) {
    'A' <= c <= 'Z' || 'a' <= c <= 'z' || '0' <= c <= '9' || c in {'-', '.', '_', '~', '%'}
  }

  /** prv_isAltPathValid, for a path that is not null */
  predicate IsAltPathValid(altPath: string) {
    altPath != "" && altPath[0] == '/' && forall i | 1 <= i < |altPath| :: IsPathChar(altPath[i])
  }

  /** What the beginning of a payload says: the place of the path, its length, and where the links begin. */
  datatype Header = Plain | Alternative(start: nat, length: nat)

  function FirstClose(s: string, i: nat): (j: nat)
    requires i < |s|
    ensures i <= j < |s| && (j < |s| - 1 ==> s[j] == '>') && forall k | i <= k < j :: s[k] != '>'
    decreases |s| - i
  {
    if i < |s| - 1 && s[i] != '>' then FirstClose(s, i + 1) else i
  }

  /** The resource type of an LWM2M client is named here. */
  predicate HasType(s: string, at: nat) {
    at + |RESOURCE_TYPE| <= |s| && s[at..at + |RESOURCE_TYPE|] == RESOURCE_TYPE
  }

  /** Looks for the path of a resource of the type of an LWM2M client at the start of the payload. */
  function ReadHeader(s: string): (h: Header)
    ensures h.Alternative? ==> h.start + h.length + |RESOURCE_TYPE| <= |s|
  {
    var spaces := |s| - |SkipSpaces(s)|;
    if spaces == |s| then Plain
    else
      var close := FirstClose(s, spaces);
      var start := if s[spaces] == '<' then spaces + 1 else 0;
      if 0 < close < |s| - 1 && start <= close && HasType(s, close) then Alternative(start, close - start) else Plain
  }

  // a C string ends at a NUL
  function CString(s: string): string { UpTo(s, NUL, NUL) }

  /** prv_decodeRegisterPayload: the alternative path, where "/" counts as none, and the objects. */
  function Decode(s: string): (Option<string>, seq<Object>) {
    match ReadHeader(s)
    case Plain => (None, AddLinks([], Links(s, None, 0)))
    case Alternative(start, n) =>
      var altPath := CString(s[start..start + n]);
      if !IsAltPathValid(altPath) then (Some(altPath), [])
      else
        var kept := if n == 1 then None else Some(altPath);
        (kept, AddLinks([], Links(s[start + n + |RESOURCE_TYPE|..], kept, n)))
  }

  // ---------- reading what was printed ----------

  /** The path that lwm2m_configure accepts and keeps. */
  predicate Configured(altPath: Option<string>) {
    altPath.Some? ==> IsAltPathValid(altPath.value) && |altPath.value| > 1
  }

  /** What a link is read as: 65535 is no identifier. */
  function Readable(l: Link): seq<Link> {
    if l.objectId == MAX_ID then []
    else if l.instanceId == Some(MAX_ID) then [Link(l.objectId, None)]
    else [l]
  }

  function AllReadable(ls: seq<Link>): seq<Link> {
    if ls == [] then [] else Readable(ls[0]) + AllReadable(ls[1..])
  }

  lemma {:induction false} UpToAll(s: string, rest: string, a: char, b: char)
    requires a !in s && b !in s && (rest != "" ==> rest[0] == a || rest[0] == b)
    ensures UpTo(s + rest, a, b) == s
  {
    if s == "" {
      assert s + rest == rest;
    } else {
      assert (s + rest)[1..] == s[1..] + rest;
      UpToAll(s[1..], rest, a, b);
    }
  }

  /** A character that is neither a digit nor a path character is in no number and in no path. */
  lemma NotInText(n: nat, c: char)
    requires !IsDigit(c)
    ensures c !in ToText(n)
  {
  }

  lemma NotInPath(altPath: Option<string>, c: char)
    requires Configured(altPath) && !IsPathChar(c) && c != '/'
    ensures c !in Prefix(altPath)
  {
  }

  lemma NotInLink(altPath: Option<string>, l: Link, c: char)
    requires Configured(altPath) && c in {',', ' '}
    ensures c !in LinkText(Prefix(altPath), l)
  {
    hide ToText;
    NotInText(l.objectId, c);
    NotInPath(altPath, c);
    if l.instanceId.Some? {
      NotInText(l.instanceId.value, c);
    }
  }

  lemma NumberOfText(n: nat)
    ensures U.Number(ToText(n)) == n
    ensures ToText(n) != "" && ToText(n)[0] != '/' && '/' !in ToText(n) && ' ' !in ToText(n)
  {
    NotInText(n, '/');
    NotInText(n, ' ');
    U.UpToSlashAll(ToText(n), "");
    assert ToText(n) + "" == ToText(n);
    ValueOfText(n);
  }

  lemma ObjectNumber(o: uint16)
    ensures GetNumbers("/" + ToText(o)) == if o == MAX_ID then None else Some(Link(o, None))
  {
    hide ToText, U.Number, UpTo;
    var path := ToText(o);
    NumberOfText(o);
    assert ("/" + path)[1..] == path;
    UpToAll(path, "", '/', ' ');
    assert path + "" == path;
  }

  lemma InstanceNumber(o: uint16, i: uint16)
    ensures GetNumbers("/" + ToText(o) + "/" + ToText(i))
         == if o == MAX_ID then None else if i == MAX_ID then Some(Link(o, None)) else Some(Link(o, Some(i)))
  {
    hide ToText, U.Number, UpTo;
    var first, second := ToText(o), ToText(i);
    NumberOfText(o);
    NumberOfText(i);
    var path := first + ("/" + second);
    assert "/" + first + "/" + second == "/" + path;
    assert ("/" + path)[1..] == path;
    UpToAll(first, "/" + second, '/', ' ');
    assert path[|first| + 1..] == second;
    UpToAll(second, "", ' ', ' ');
    assert second + "" == second;
  }

  lemma NumbersOfLink(l: Link)
    ensures var instance := if l.instanceId.Some? then "/" + ToText(l.instanceId.value) else "";
            var data := "/" + ToText(l.objectId) + instance;
            GetNumbers(data) == if Readable(l) == [] then None else Some(Readable(l)[0])
  {
    hide ToText, GetNumbers;
    var first := "/" + ToText(l.objectId);
    assert first + "" == first;
    ObjectNumber(l.objectId);
    if l.instanceId.Some? {
      InstanceNumber(l.objectId, l.instanceId.value);
      assert first + ("/" + ToText(l.instanceId.value)) == first + "/" + ToText(l.instanceId.value);
    }
  }

  lemma IdOfLink(altPath: Option<string>, l: Link)
    requires Configured(altPath)
    ensures GetId(LinkText(Prefix(altPath), l), altPath, |Prefix(altPath)|)
         == if Readable(l) == [] then None else Some(Readable(l)[0])
  {
    hide ToText, GetNumbers, Readable;
    NumbersOfLink(l);
    var e := LinkText(Prefix(altPath), l);
    var numbers := "/" + ToText(l.objectId) + (if l.instanceId.Some? then "/" + ToText(l.instanceId.value) else "");
    assert e[1..|e| - 1] == Prefix(altPath) + numbers;
    assert (Prefix(altPath) + numbers)[|Prefix(altPath)|..] == numbers;
  }

  /** The first link of a payload, with or without more behind its comma. */
  lemma LinksStep(e: string, more: string, altPath: Option<string>, n: nat)
    requires e != "" && e[0] != ' ' && ',' !in e
    ensures var l := GetId(e, altPath, n);
            var ls := if l.Some? then [l.value] else [];
            && Links(e, altPath, n) == ls
            && Links(e + ("," + more), altPath, n) == ls + Links(more, altPath, n)
  {
    hide GetId, UpTo;
    assert Links("", altPath, n) == [];
    UpToAll(e, "", ',', ',');
    assert e + "" == e;
    assert SkipSpaces(e) == e;
    var s := e + ("," + more);
    UpToAll(e, "," + more, ',', ',');
    assert SkipSpaces(s) == s;
    assert Behind(s, |e| + 1) == more;
  }

  /** The links are read in their order, whether or not a comma follows the last one. */
  lemma {:induction false} ReadsLinks(altPath: Option<string>, ls: seq<Link>)
    requires Configured(altPath) && ls != []
    ensures var text := LinksText(Prefix(altPath), ls);
            |text| > 2 && Links(text[..|text| - 1], altPath, |Prefix(altPath)|) == AllReadable(ls)
    decreases |ls|
  {
    hide GetId, Readable, LinkText, Links, Configured, Prefix;
    var alt := Prefix(altPath);
    var text := LinksText(alt, ls);
    var e := LinkText(alt, ls[0]);
    LinkShape(alt, ls[0]);
    NotInLink(altPath, ls[0], ',');
    IdOfLink(altPath, ls[0]);
    OneReadable(ls[0]);
    var s := text[..|text| - 1];
    if |ls| == 1 {
      LinksStep(e, "", altPath, |alt|);
      assert ls[1..] == [];
      assert LinksText(alt, ls[1..]) == "" && AllReadable(ls[1..]) == [];
      assert s == e;
    } else {
      var more := LinksText(alt, ls[1..]);
      ReadsLinks(altPath, ls[1..]);
      LinksStep(e, more[..|more| - 1], altPath, |alt|);
      assert s == e + ("," + more[..|more| - 1]);
    }
  }

  lemma OneReadable(l: Link)
    ensures Readable(l) == [] || Readable(l) == [Readable(l)[0]]
  {
  }

  lemma LinkShape(alt: string, l: Link)
    ensures var e := LinkText(alt, l); |e| > 2 && e[0] == '<' && e[|e| - 1] == '>'
  {
  }

  // ---------- what the objects declare ----------

  /** The links that a list of objects stands for. */
  function Stands(objects: seq<Object>): set<Link> {
    if objects == [] then {}
    else {Link(objects[0].id, None)} + (set i | i in objects[0].instances :: Link(objects[0].id, Some(i)))
         + Stands(objects[1..])
  }

  lemma {:induction false} StandsAppend(a: seq<Object>, b: seq<Object>)
    ensures Stands(a + b) == Stands(a) + Stands(b)
  {
    if a == [] {
      assert a + b == b;
    } else {
      assert (a + b)[1..] == a[1..] + b;
      StandsAppend(a[1..], b);
    }
  }

  lemma StandsOne(o: Object)
    ensures Stands([o]) == {Link(o.id, None)} + set i | i in o.instances :: Link(o.id, Some(i))
  {
    assert [o][1..] == [];
  }

  lemma StandsSplice(a: seq<Object>, o: Object, b: seq<Object>)
    ensures Stands(a + [o] + b) == Stands(a) + Stands([o]) + Stands(b)
  {
    StandsAppend(a + [o], b);
    StandsAppend(a, [o]);
  }

  /** The list is in strict order, and so are the instances of each object. */
  predicate Listed(objects: seq<Object>) {
    && SortedList.StrictlySorted(objects, ObjectId)
    && forall i | 0 <= i < |objects| :: SortedList.StrictlySorted<uint16>(objects[i].instances, Itself)
  }

  /** The links one link stands for. */
  function Meant(l: Link): set<Link> { {Link(l.objectId, None), l} }

  lemma AddInstanceAdds(o: Object, inst: uint16)
    requires SortedList.StrictlySorted<uint16>(o.instances, Itself)
    ensures var r := AddInstance(o, inst);
            && r.id == o.id && SortedList.StrictlySorted<uint16>(r.instances, Itself)
            && Stands([r]) == Stands([o]) + {Link(o.id, Some(inst))}
  {
    hide SortedList.Find, SortedList.Insert, Stands;
    StandsOne(o);
    StandsOne(AddInstance(o, inst));
    SortedList.FindIsExact<uint16>(o.instances, inst, Itself);
    if SortedList.Find<uint16>(o.instances, inst, Itself).None? {
      SortedList.InsertKeepsSorted<uint16>(o.instances, inst, Itself);
      var r := SortedList.Insert<uint16>(o.instances, inst, Itself);
      assert forall i :: i in r <==> i in o.instances || i == inst by {
        assert forall i :: i in r <==> i in multiset(r);
      }
    }
  }

  lemma InsertedListed(objects: seq<Object>, at: nat, o: Object, r: seq<Object>)
    requires Listed(objects) && at <= |objects| && o.instances == [] && r == objects[..at] + [o] + objects[at..]
    requires SortedList.StrictlySorted(r, ObjectId)
    ensures Listed(r) && PlaceOf(r, o.id) < |r|
  {
    NothingSorted();
    assert r[at] == o;
    assert forall j | 0 <= j < |r| && j != at :: r[j] == objects[if j < at then j else j - 1];
  }

  lemma AddObjectListed(objects: seq<Object>, o: Object)
    requires Listed(objects) && o.instances == [] && SortedList.Find<Object>(objects, o.id, ObjectId).None?
    ensures var r := SortedList.Insert<Object>(objects, o, ObjectId); Listed(r) && PlaceOf(r, o.id) < |r|
  {
    hide SortedList.Find, SortedList.Insert, SortedList.StrictlySorted, SortedList.HasId, PlaceOf;
    SortedIsSorted(objects);
    SortedList.FindIsExact<Object>(objects, o.id, ObjectId);
    SortedList.InsertKeepsSorted<Object>(objects, o, ObjectId);
    SortedList.InsertAt<Object>(objects, o, ObjectId);
    InsertedListed(objects, SortedList.Position<Object>(objects, o, ObjectId), o,
                   SortedList.Insert<Object>(objects, o, ObjectId));
  }

  lemma AddObjectStands(objects: seq<Object>, o: Object)
    requires o.instances == []
    ensures Stands(SortedList.Insert<Object>(objects, o, ObjectId)) == Stands(objects) + {Link(o.id, None)}
  {
    hide SortedList.Insert, Stands;
    var at := SortedList.Position<Object>(objects, o, ObjectId);
    SortedList.InsertAt<Object>(objects, o, ObjectId);
    StandsSplice(objects[..at], o, objects[at..]);
    StandsAppend(objects[..at], objects[at..]);
    assert objects == objects[..at] + objects[at..];
    StandsOne(o);
  }

  lemma NothingSorted()
    ensures SortedList.StrictlySorted<uint16>([], Itself)
  {
  }

  lemma SortedIsSorted(objects: seq<Object>)
    requires SortedList.StrictlySorted(objects, ObjectId)
    ensures SortedList.Sorted(objects, ObjectId)
  {
  }

  lemma {:induction false} ObjectStands(objects: seq<Object>, i: nat)
    requires i < |objects|
    ensures Link(objects[i].id, None) in Stands(objects)
  {
    if i > 0 {
      ObjectStands(objects[1..], i - 1);
    }
  }

  /** A link read adds just what it stands for. */
  lemma AddLinkAdds(objects: seq<Object>, l: Link)
    requires Listed(objects)
    ensures Listed(AddLink(objects, l)) && Stands(AddLink(objects, l)) == Stands(objects) + Meant(l)
  {
    hide SortedList.Find, SortedList.Insert, SortedList.StrictlySorted, Stands, AddInstance;
    var id := l.objectId;
    var objects1 := objects;
    if SortedList.Find<Object>(objects, id, ObjectId).Some? {
      SortedIsSorted(objects);
      SortedList.FindIsExact<Object>(objects, id, ObjectId);
      ObjectStands(objects, PlaceOf(objects, id));
    } else {
      AddObjectListed(objects, Object(id, []));
      AddObjectStands(objects, Object(id, []));
      objects1 := SortedList.Insert<Object>(objects, Object(id, []), ObjectId);
    }
    var i := PlaceOf(objects1, id);
    if l.instanceId.Some? {
      var o := objects1[i];
      AddInstanceAdds(o, l.instanceId.value);
      ReplacedListed(objects1, i, AddInstance(o, l.instanceId.value));
      StandsSplice(objects1[..i], o, objects1[i + 1..]);
      StandsSplice(objects1[..i], AddInstance(o, l.instanceId.value), objects1[i + 1..]);
      assert objects1 == objects1[..i] + [o] + objects1[i + 1..];
    }
  }

  lemma ReplacedListed(objects: seq<Object>, i: nat, o: Object)
    requires Listed(objects) && i < |objects| && o.id == objects[i].id
    requires SortedList.StrictlySorted<uint16>(o.instances, Itself)
    ensures Listed(objects[i := o]) && objects[i := o] == objects[..i] + [o] + objects[i + 1..]
  {
    assert forall j | 0 <= j < |objects| :: ObjectId(objects[i := o][j]) == ObjectId(objects[j]);
  }

  function AllMeant(ls: seq<Link>): set<Link> {
    if ls == [] then {} else Meant(ls[0]) + AllMeant(ls[1..])
  }

  lemma {:induction false} AddLinksAdds(objects: seq<Object>, ls: seq<Link>)
    requires Listed(objects)
    ensures Listed(AddLinks(objects, ls)) && Stands(AddLinks(objects, ls)) == Stands(objects) + AllMeant(ls)
    decreases |ls|
  {
    hide AddLink, Listed, Stands;
    if ls != [] {
      AddLinkAdds(objects, ls[0]);
      AddLinksAdds(AddLink(objects, ls[0]), ls[1..]);
    }
  }

  /** What a client declares: each object but the Security object, and each instance of it. */
  function Declared(objects: seq<Object>): set<Link> {
    set l | l in Stands(objects) && l.objectId != SECURITY_OBJECT
  }

  /** Some identifier that is declared is 65535. */
  predicate UsesMaxId(objects: seq<Object>) {
    exists l | l in Declared(objects) :: l.objectId == MAX_ID || l.instanceId == Some(MAX_ID)
  }

  function WithoutMaxId(ls: set<Link>): set<Link> {
    set l | l in ls && l.objectId != MAX_ID && l.instanceId != Some(MAX_ID)
  }

  lemma {:induction false} MeantAppend(a: seq<Link>, b: seq<Link>)
    ensures AllMeant(AllReadable(a + b)) == AllMeant(AllReadable(a)) + AllMeant(AllReadable(b))
  {
    if a == [] {
      assert a + b == b;
    } else {
      assert (a + b)[1..] == a[1..] + b;
      MeantAppend(a[1..], b);
      ReadableMeans(a[0], AllReadable(a[1..]));
      ReadableMeans(a[0], AllReadable(a[1..] + b));
    }
  }

  lemma ReadableMeans(l: Link, rest: seq<Link>)
    ensures AllMeant(Readable(l) + rest) == WithoutMaxId(Meant(l)) + AllMeant(rest)
  {
    if Readable(l) == [] {
      assert Readable(l) + rest == rest;
    } else {
      assert (Readable(l) + rest)[1..] == rest;
    }
  }

  lemma {:induction false} InstancesMeant(id: uint16, instances: seq<uint16>)
    requires instances != []
    ensures AllMeant(AllReadable(InstanceLinks(id, instances))) == WithoutMaxId(Stands([Object(id, instances)]))
    decreases |instances|
  {
    hide Stands;
    StandsOne(Object(id, instances));
    ReadableMeans(Link(id, Some(instances[0])), AllReadable(InstanceLinks(id, instances[1..])));
    if |instances| > 1 {
      InstancesMeant(id, instances[1..]);
      StandsOne(Object(id, instances[1..]));
    } else {
      assert AllReadable(InstanceLinks(id, instances[1..])) == [];
    }
  }

  lemma ObjectMeant(o: Object)
    ensures AllMeant(AllReadable(ObjectLinks(o))) == WithoutMaxId(Declared([o]))
  {
    hide Stands;
    StandsOne(o);
    if o.id == SECURITY_OBJECT {
    } else if o.instances == [] {
      ReadableMeans(Link(o.id, None), []);
      assert [Link(o.id, None)][1..] == [];
      assert AllReadable([Link(o.id, None)]) == Readable(Link(o.id, None)) + [];
    } else {
      InstancesMeant(o.id, o.instances);
    }
  }

  /** The links printed for the objects are read as what the objects declare, but for 65535. */
  lemma {:induction false} LinksMean(objects: seq<Object>)
    ensures AllMeant(AllReadable(AllLinks(objects))) == WithoutMaxId(Declared(objects))
  {
    hide AllMeant, AllReadable, ObjectLinks;
    if objects == [] {
      NoLinks();
    } else {
      MeantAppend(ObjectLinks(objects[0]), AllLinks(objects[1..]));
      LinksMean(objects[1..]);
      ObjectMeant(objects[0]);
      assert Stands(objects) == Stands([objects[0]]) + Stands(objects[1..]) by {
        StandsAppend([objects[0]], objects[1..]);
        assert objects == [objects[0]] + objects[1..];
      }
    }
  }

  lemma NoLinks()
    ensures AllMeant(AllReadable([])) == {}
  {
  }

  // ---------- the header ----------

  lemma FirstCloseIs(s: string, i: nat, j: nat)
    requires i <= j < |s| - 1 && s[j] == '>' && forall k | i <= k < j :: s[k] != '>'
    ensures FirstClose(s, i) == j
  {
  }

  /** The header of a payload with an alternative path is found. */
  lemma HeaderFound(altPath: Option<string>, rest: string)
    requires Configured(altPath) && altPath.Some? && rest != ""
    ensures ReadHeader(AltText(altPath) + rest) == Alternative(1, |altPath.value|)
    ensures CString(altPath.value) == altPath.value
  {
    NotInPath(altPath, '>');
    NotInPath(altPath, NUL);
    PathFound(altPath.value, rest);
  }

  /** So is that with any other text in its place. */
  lemma PathFound(a: string, rest: string)
    requires '>' !in a && NUL !in a && rest != ""
    ensures ReadHeader("<" + a + RESOURCE_TYPE + rest) == Alternative(1, |a|)
    ensures CString(a) == a
  {
    hide HasType, UpTo;
    var s := "<" + a + RESOURCE_TYPE + rest;
    var close := |a| + 1;
    TypeBehind(a, rest);
    assert s[0] == '<' && s[close] == '>';
    assert forall k | 1 <= k < close :: s[k] == a[k - 1];
    assert SkipSpaces(s) == s;
    FirstCloseIs(s, 0, close);
    UpToAll(a, "", NUL, NUL);
    assert a + "" == a;
  }

  /** Whatever path another client names: an invalid one makes the server read no object, "/" counts as none, and any
      other is expected in front of each object. */
  lemma PathIsRead(a: string, rest: string)
    requires '>' !in a && NUL !in a && rest != ""
    ensures Decode("<" + a + RESOURCE_TYPE + rest) ==
            if !IsAltPathValid(a) then (Some(a), [])
            else if a == "/" then (None, AddLinks([], Links(rest, None, 0)))
            else (Some(a), AddLinks([], Links(rest, Some(a), |a|)))
  {
    hide ReadHeader, CString, Links, AddLinks, IsAltPathValid;
    PathFound(a, rest);
    FourParts("<", a, RESOURCE_TYPE, rest);
    LinksWithoutPath(rest, 1);
    if IsAltPathValid(a) && |a| == 1 {
      OnlySlash(a);
    }
  }

  lemma FourParts(a: string, b: string, c: string, d: string)
    ensures var s := a + b + c + d; s[|a|..|a| + |b|] == b && s[|a| + |b| + |c|..] == d
  {
    assert a + b + c + d == a + b + (c + d);
  }

  /** Whatever is read, the lists are in strict order. */
  lemma DecodedIsListed(s: string)
    ensures Listed(Decode(s).1)
  {
    hide Listed, Links, AddLinks, ReadHeader, CString, IsAltPathValid;
    NoObjects();
    match ReadHeader(s)
    case Plain => AddLinksAdds([], Links(s, None, 0));
    case Alternative(start, n) =>
      var altPath := CString(s[start..start + n]);
      AddLinksAdds([], Links(s[start + n + |RESOURCE_TYPE|..], if n == 1 then None else Some(altPath), n));
  }

  lemma OnlySlash(a: string)
    requires IsAltPathValid(a) && |a| == 1
    ensures a == "/"
  {
  }

  lemma {:induction false} LinksWithoutPath(s: string, n: nat)
    ensures Links(s, None, n) == Links(s, None, 0)
    decreases |s|
  {
    hide UpTo, GetNumbers;
    var t := SkipSpaces(s);
    if t != "" {
      var e := UpTo(t, ',', ',');
      LinksWithoutPath(Behind(t, |e| + 1), n);
    }
  }

  /** Spaces in front of a link are skipped. */
  lemma SpacesAreSkipped(spaces: string, s: string, altPath: Option<string>, n: nat)
    requires forall c | c in spaces :: c == ' '
    ensures Links(spaces + s, altPath, n) == Links(s, altPath, n)
  {
    hide UpTo, GetId;
    SkipsSpaces(spaces, s);
  }

  lemma {:induction false} SkipsSpaces(spaces: string, s: string)
    requires forall c | c in spaces :: c == ' '
    ensures SkipSpaces(spaces + s) == SkipSpaces(s)
  {
    if spaces == "" {
      assert spaces + s == s;
    } else {
      assert (spaces + s)[1..] == spaces[1..] + s && spaces[0] in spaces;
      assert forall c | c in spaces[1..] :: c in spaces;
      SkipsSpaces(spaces[1..], s);
    }
  }

  lemma TypeBehind(a: string, rest: string)
    ensures HasType("<" + a + RESOURCE_TYPE + rest, |a| + 1)
  {
    var s := "<" + a + RESOURCE_TYPE + rest;
    assert s == ("<" + a) + (RESOURCE_TYPE + rest);
    assert s[|a| + 1..|a| + 1 + |RESOURCE_TYPE|] == RESOURCE_TYPE;
  }

  lemma NoHeaderBehind(e: string, tail: string)
    requires |e| > 2 && e[0] == '<' && e[|e| - 1] == '>' && '>' !in e[..|e| - 1]
    requires tail != "" ==> tail[0] == ','
    ensures ReadHeader(e + tail) == Plain
  {
    var s := e + tail;
    assert SkipSpaces(s) == s;
    assert forall k | 0 <= k < |e| - 1 :: s[k] == e[..|e| - 1][k];
    if tail == "" {
      assert FirstClose(s, 0) == |s| - 1;
    } else {
      var close := |e| - 1;
      FirstCloseIs(s, 0, close);
      if close + |RESOURCE_TYPE| <= |s| {
        assert s[close..close + |RESOURCE_TYPE|][1] == ',' && RESOURCE_TYPE[1] == ';';
      }
    }
  }

  /** No header is found in a payload without one: behind the first link comes a comma or nothing. */
  lemma NoHeader(ls: seq<Link>)
    requires ls != []
    ensures var text := LinksText("", ls); ReadHeader(text[..|text| - 1]) == Plain
  {
    hide ToText, ReadHeader;
    var text := LinksText("", ls);
    var e := LinkText("", ls[0]);
    var more := LinksText("", ls[1..]);
    LinkShape("", ls[0]);
    NotInText(ls[0].objectId, '>');
    if ls[0].instanceId.Some? {
      NotInText(ls[0].instanceId.value, '>');
      assert e[..|e| - 1] == "</" + ToText(ls[0].objectId) + "/" + ToText(ls[0].instanceId.value);
    } else {
      assert e[..|e| - 1] == "</" + ToText(ls[0].objectId);
    }
    var tail := ("," + more)[..|more|];
    assert text[..|text| - 1] == e + tail;
    NoHeaderBehind(e, tail);
  }

  /** Behind a header alone the closing comma is missing, and it is not taken for one. */
  lemma HeaderAlone(altPath: Option<string>)
    requires Configured(altPath) && altPath.Some?
    ensures var text := AltText(altPath); Decode(text[..|text| - 1]) == (None, [])
  {
    hide ReadHeader, Links;
    var text := AltText(altPath);
    var s := text[..|text| - 1];
    NotInPath(altPath, '>');
    NotInPath(altPath, ',');
    var type16 := RESOURCE_TYPE[..|RESOURCE_TYPE| - 1];
    assert s == "<" + altPath.value + type16;
    TypeAloneIsPlain(altPath.value);
    assert ',' !in type16;
    LinksStep(s, "", None, 0);
    assert s[|s| - 1] == '"';
  }

  lemma TypeFits(s: string, at: nat)
    ensures HasType(s, at) ==> at + |RESOURCE_TYPE| <= |s|
  {
  }

  lemma TypeAloneIsPlain(a: string)
    requires '>' !in a
    ensures ReadHeader("<" + a + RESOURCE_TYPE[..|RESOURCE_TYPE| - 1]) == Plain
  {
    hide HasType;
    var s := "<" + a + RESOURCE_TYPE[..|RESOURCE_TYPE| - 1];
    var close := |a| + 1;
    TypeFits(s, close);
    assert s[0] == '<' && s[close] == '>' && |s| == close + |RESOURCE_TYPE| - 1;
    assert forall k | 1 <= k < close :: s[k] == a[k - 1];
    assert SkipSpaces(s) == s;
    FirstCloseIs(s, 0, close);
  }

  // ---------- the round trip ----------

  /** Whatever is printed is read as what the objects declare but for 65535, in strict order; and the
      alternative path comes back if there is an object to print. */
  lemma PrintedIsRead(altPath: Option<string>, objects: seq<Object>, length: nat)
    requires Configured(altPath) && Print(altPath, objects, length) != ""
    ensures var (path, read) := Decode(Print(altPath, objects, length));
            && Listed(read) && Stands(read) == WithoutMaxId(Declared(objects))
            && path == if AllLinks(objects) == [] then None else altPath
  {
    hide AllLinks, AllReadable, AllMeant, LinksText, Links, AddLinks, ReadHeader, CString, Stands, Listed, Declared,
      WithoutMaxId;
    var ls := AllLinks(objects);
    LinksMean(objects);
    assert Listed([]) && Stands([]) == {} by { NoObjects(); }
    if ls == [] {
      assert LinksText(Prefix(altPath), ls) == "" && AllMeant(AllReadable(ls)) == {} by { NoText(altPath); }
      HeaderAlone(altPath);
      assert FullText(altPath, objects) == AltText(altPath);
    } else {
      var text := LinksText(Prefix(altPath), ls);
      ReadsLinks(altPath, ls);
      AddLinksAdds([], AllReadable(ls));
      var s := text[..|text| - 1];
      if altPath.None? {
        NoHeader(ls);
        assert FullText(altPath, objects) == text;
      } else {
        HeaderFound(altPath, s);
        assert FullText(altPath, objects) == AltText(altPath) + text;
        CutText(AltText(altPath), text);
        HeaderCut(altPath.value, s);
      }
    }
  }

  lemma CutText(a: string, b: string)
    requires b != ""
    ensures (a + b)[..|a + b| - 1] == a + b[..|b| - 1]
  {
  }

  lemma HeaderCut(a: string, rest: string)
    ensures var s := "<" + a + RESOURCE_TYPE + rest; s[1..1 + |a|] == a && s[1 + |a| + |RESOURCE_TYPE|..] == rest
  {
  }

  lemma NoObjects()
    ensures Listed([]) && Stands([]) == {}
  {
  }

  lemma NoText(altPath: Option<string>)
    ensures LinksText(Prefix(altPath), []) == "" && AllMeant(AllReadable([])) == {}
  {
  }

  /** The server learns exactly what the client declares, if and only if no identifier is 65535. */
  lemma PayloadRoundTrip(altPath: Option<string>, objects: seq<Object>, length: nat)
    requires Configured(altPath) && Print(altPath, objects, length) != ""
    ensures Stands(Decode(Print(altPath, objects, length)).1) == Declared(objects) <==> !UsesMaxId(objects)
  {
    hide Decode, Print, Declared;
    PrintedIsRead(altPath, objects, length);
    assert WithoutMaxId(Declared(objects)) == Declared(objects) <==> !UsesMaxId(objects);
  }

  /** What is printed looks like this: the Security object is left out, an object without instances stands for
      itself. */
  lemma PrintsLinkFormat()
    ensures var objects := [Object(0, [0]), Object(1, [0, 12]), Object(3, [])];
            && FullText(None, objects) == "</1/0>,</1/12>,</3>,"
            && FullText(Some("/a"), objects) == "</a>;rt=\"oma.lwm2m\",</a/1/0>,</a/1/12>,</a/3>,"
  {
    hide LinksText, AllLinks, LinkText;
    LinksOfThree();
    TextOfThree("");
    TextOfThree("/a");
    LinkTexts();
    assert AltText(Some("/a")) == "</a>;rt=\"oma.lwm2m\",";
  }

  lemma LinksOfThree()
    ensures AllLinks([Object(0, [0]), Object(1, [0, 12]), Object(3, [])]) ==
            [Link(1, Some(0)), Link(1, Some(12)), Link(3, None)]
  {
    var objects := [Object(0, [0]), Object(1, [0, 12]), Object(3, [])];
    var list: seq<uint16> := [0, 12];
    assert list[1..] == [12] && list[1..][1..] == [];
    assert objects[1..][1..][1..] == [];
  }

  lemma TextOfThree(alt: string)
    ensures var ls := [Link(1, Some(0)), Link(1, Some(12)), Link(3, None)];
            LinksText(alt, ls) ==
              LinkText(alt, ls[0]) + "," + (LinkText(alt, ls[1]) + "," + (LinkText(alt, ls[2]) + ","))
  {
    hide LinkText;
    var ls := [Link(1, Some(0)), Link(1, Some(12)), Link(3, None)];
    assert ls[1..] == [ls[1], ls[2]] && ls[1..][1..] == [ls[2]] && ls[1..][1..][1..] == [];
    assert LinksText(alt, [ls[2]]) == LinkText(alt, ls[2]) + "," + "";
  }

  lemma LinkTexts()
    ensures LinkText("", Link(1, Some(0))) == "</1/0>" && LinkText("", Link(1, Some(12))) == "</1/12>"
    ensures LinkText("", Link(3, None)) == "</3>"
    ensures LinkText("/a", Link(1, Some(0))) == "</a/1/0>" && LinkText("/a", Link(1, Some(12))) == "</a/1/12>"
    ensures LinkText("/a", Link(3, None)) == "</a/3>"
  {
    assert ToText(0) == "0" && ToText(1) == "1" && ToText(3) == "3" && ToText(12) == "12";
  }
}
