/** LWM2M paths (wakaama/uri.c). */
module Uri {
  // Uri-Path segments, as wakaama/transaction.c prints and lwm2m_decode_uri reads them, and textual paths, as
  // handle_dm_request prints and lwm2m_stringToUri reads them.

  import opened Core
  import opened DecimalText

  datatype Target = Dm | DeleteAll | Registration | Bootstrap

  /** lwm2m_uri_t: the flag bits say what the target is and which identifiers are set. */
  datatype Uri = Uri(target: Target, objectId: Option<uint16>, instanceId: Option<uint16>, resourceId: Option<uint16>)

  const REGISTRATION_SEGMENT := "rd"
  const BOOTSTRAP_SEGMENT := "bs"

  // ---------- printers ----------

  function IdText(id: Option<uint16>): seq<string> {
    if id.Some? then [ToText(id.value)] else []
  }

  /** The segments transaction_new puts into a request. A resource without an instance gets an empty
      instance segment. */
  function Segments(altPath: Option<string>, u: Uri): seq<string>
    requires altPath.Some? ==> altPath.value != ""
  {
    (if altPath.Some? then [altPath.value[1..]] else [])
    + IdText(u.objectId)
    + (if u.instanceId.None? && u.resourceId.Some? then [""] else IdText(u.instanceId))
    + IdText(u.resourceId)
  }

  /** The segments joined again, as in coap_get_multi_option_as_string. */
  function Joined(segments: seq<string>): string {
    if segments == [] then "" else "/" + segments[0] + Joined(segments[1..])
  }

  // ---------- parsers ----------

  function UpToSlash(s: string): (t: string)
    ensures |t| <= |s| && t == s[..|t|] && '/' !in t && (|t| < |s| ==> s[|t|] == '/')
  {
    if s == "" || s[0] == '/' then "" else [s[0]] + UpToSlash(s[1..])
  }

  /** prv_get_number, which reads up to a slash: -1 for a slash at the start and for a letter. */
  function Number(s: string): int {
    if s != "" && s[0] == '/' then -1
    else if AllDigits(UpToSlash(s)) then Value(UpToSlash(s))
    else -1
  }

  function Id(s: string, limit: int): Option<uint16>
    requires limit <= 0xFFFF
  {
    if 0 <= Number(s) <= limit then Some(Number(s)) else None
  }

  /** A text as it lies in memory: its terminator is behind it, and something else behind that. */
  function InMemory(text: string, behind: string): string { text + [NUL] + behind }

  /** The alternative path test of lwm2m_decode_uri compares as many characters as the segment has with those in memory
      from the second one of the alternative path on, wherever that ends. */
  predicate MatchesAltPath(segment: string, memory: string) {
    |segment| < |memory| && segment == memory[1..|segment| + 1]
  }

  function DecodeDm(path: seq<string>): Option<Uri> {
    if path == [] || path[0] == "" then Some(Uri(DeleteAll, None, None, None))
    else
      var o := Id(path[0], 0xFFFF);
      if o.None? then None
      else if |path| == 1 then Some(Uri(Dm, o, None, None))
      else
        var i := if path[1] == "" then None else Id(path[1], 0xFFFE);
        if path[1] != "" && i.None? then None
        else if |path| == 2 then Some(Uri(Dm, o, i, None))
        else
          var r := if path[2] == "" then None else Id(path[2], 0xFFFF);
          if path[2] != "" && (i.None? || r.None?) then None
          else if |path| > 3 then None
          else Some(Uri(Dm, o, i, r))
  }

  /** lwm2m_decode_uri, for the memory from the alternative path on, if there is one; None stands for its null
      result. */
  function DecodeUri(altPath: Option<string>, path: seq<string>): Option<Uri> {
    if path != [] && path[0] == REGISTRATION_SEGMENT then
      if |path| == 1 then Some(Uri(Registration, None, None, None))
      else
        var o := Id(path[1], 0xFFFF);
        if o.None? || |path| > 2 then None else Some(Uri(Registration, o, None, None))
    else if path != [] && path[0] == BOOTSTRAP_SEGMENT then
      if |path| == 1 then Some(Uri(Bootstrap, None, None, None)) else None
    else if altPath.None? then DecodeDm(path)
    else if path == [] || !MatchesAltPath(path[0], altPath.value) then None
    else DecodeDm(path[1..])
  }

  predicate IsSpace(c: char) { c == ' ' || '\t' <= c <= '\r' }

  function SkipSpace(s: string): string {
    if s != "" && IsSpace(s[0]) then SkipSpace(s[1..]) else s
  }

  /** One number of lwm2m_stringToUri and the text behind it, without the slash that ends it. */
  function TakeId(s: string, limit: int): Option<(uint16, string)>
    requires limit <= 0xFFFF
  {
    var t := UpToSlash(s);
    if Id(s, limit).None? then None
    else Some((Id(s, limit).value, if |t| < |s| then s[|t| + 1..] else ""))
  }

  /** lwm2m_stringToUri; None stands for its result 0. Behind a resource nothing may follow, not even the
      slash that may follow an object or an instance. */
  function StringToUri(buffer: string): Option<Uri> {
    var s := SkipSpace(buffer);
    if |s| < 2 || s[0] != '/' then None
    else
      var o := TakeId(s[1..], 0xFFFF);
      if o.None? then None
      else if o.value.1 == "" then Some(Uri(Dm, Some(o.value.0), None, None))
      else
        var i := TakeId(o.value.1, 0xFFFE);
        if i.None? then None
        else if i.value.1 == "" then Some(Uri(Dm, Some(o.value.0), Some(i.value.0), None))
        else
          var r := Id(i.value.1, 0xFFFE);
          if r.None? || UpToSlash(i.value.1) != i.value.1 then None
          else Some(Uri(Dm, Some(o.value.0), Some(i.value.0), r))
  }

  // ---------- round trips ----------

  lemma {:induction false} UpToSlashAll(s: string, rest: string)
    requires '/' !in s && (rest != "" ==> rest[0] == '/')
    ensures UpToSlash(s + rest) == s
  {
    if s == "" {
      assert s + rest == rest;
    } else {
      assert (s + rest)[1..] == s[1..] + rest;
      UpToSlashAll(s[1..], rest);
    }
  }

  lemma IdOfText(n: uint16, rest: string, limit: int)
    requires limit <= 0xFFFF && (rest != "" ==> rest[0] == '/')
    ensures UpToSlash(ToText(n) + rest) == ToText(n)
    ensures Id(ToText(n) + rest, limit) == if n <= limit then Some(n) else None
    ensures ToText(n) + "" == ToText(n) != ""
    ensures ToText(n) != REGISTRATION_SEGMENT && ToText(n) != BOOTSTRAP_SEGMENT
  {
    UpToSlashAll(ToText(n), rest);
    ValueOfText(n);
    assert IsDigit(ToText(n)[0]);
  }

  lemma SegmentOfText(n: uint16, limit: int)
    requires limit <= 0xFFFF
    ensures Id(ToText(n), limit) == if n <= limit then Some(n) else None
    ensures ToText(n) != "" && ToText(n) != REGISTRATION_SEGMENT && ToText(n) != BOOTSTRAP_SEGMENT
  {
    IdOfText(n, "", limit);
  }

  lemma DmRoundTrip(u: Uri)
    requires u.target == Dm
    ensures DecodeUri(None, Segments(None, u)) == DecodeDm(Segments(None, u))
    ensures DecodeDm(Segments(None, u)) == Some(u) <==>
      && u.objectId.Some?
      && (u.instanceId.Some? ==> u.instanceId.value < MAX_ID)
      && (u.resourceId.Some? ==> u.instanceId.Some?)
  {
    hide Id, ToText;
    if u.objectId.Some? { SegmentOfText(u.objectId.value, 0xFFFF); }
    if u.instanceId.Some? { SegmentOfText(u.instanceId.value, 0xFFFE); SegmentOfText(u.instanceId.value, 0xFFFF); }
    if u.resourceId.Some? { SegmentOfText(u.resourceId.value, 0xFFFF); }
  }

  /** A device management path survives exactly if it names an object, its instance is not 65535, a
      resource comes with an instance, and the alternative path is not taken for "/rd" or "/bs". */
  lemma SegmentsRoundTrip(altPath: Option<string>, behind: string, u: Uri)
    requires u.target == Dm
    requires altPath.Some? ==> altPath.value != "" && altPath.value[0] == '/'
    ensures var memory := if altPath.Some? then Some(InMemory(altPath.value, behind)) else None;
            DecodeUri(memory, Segments(altPath, u)) == Some(u) <==>
      && u.objectId.Some?
      && (u.instanceId.Some? ==> u.instanceId.value < MAX_ID)
      && (u.resourceId.Some? ==> u.instanceId.Some?)
      && altPath !in {Some("/" + REGISTRATION_SEGMENT), Some("/" + BOOTSTRAP_SEGMENT)}
  {
    hide DecodeDm, Id, ToText;
    DmRoundTrip(u);
    if altPath.Some? {
      var p := altPath.value;
      var path := Segments(None, u);
      assert p == "/" + p[1..];
      assert Segments(altPath, u) == [p[1..]] + path;
      assert InMemory(p, behind)[1..|p[1..]| + 1] == p[1..];
      assert ([p[1..]] + path)[1..] == path;
    }
  }

  // ---------- exactly which paths ----------

  /** The segment is the number, up to a slash in it or to its end. No digit counts as 0, but not in front of a
      slash. */
  predicate Names(segment: string, id: uint16) {
    && (exists k | 0 <= k <= |segment| ::
          && AllDigits(segment[..k]) && (k < |segment| ==> segment[k] == '/')
          && Value(segment[..k]) == id)
    && (segment != "" ==> segment[0] != '/')
  }

  lemma NumberIs(segment: string, id: uint16)
    ensures Names(segment, id) <==> Number(segment) == id
  {
    var t := UpToSlash(segment);
    if k :| 0 <= k <= |segment| && AllDigits(segment[..k]) && (k < |segment| ==> segment[k] == '/')
            && Value(segment[..k]) == id {
      assert forall i | 0 <= i < k :: segment[..k][i] == segment[i];
      UpToSlashIs(segment, k);
    }
    if Number(segment) == id {
      assert segment[..|t|] == t;
    }
  }

  /** The segment with this place is left out or empty where the path has no such identifier, and names it otherwise. */
  predicate Spelled(path: seq<string>, at: nat, id: Option<uint16>) {
    if id.None? then at < |path| ==> path[at] == "" else at < |path| && path[at] != "" && Names(path[at], id.value)
  }

  /** The path is one that stands for u: "rd" with at most one number behind it, "bs" alone, nothing at all, or one
      to three numbers, of which the last two may be left out or empty, but no resource comes without an instance. */
  predicate StandsFor(path: seq<string>, u: Uri) {
    match u.target
    case Registration =>
      && path != [] && path[0] == REGISTRATION_SEGMENT && u.instanceId.None? && u.resourceId.None?
      && if u.objectId.None? then |path| == 1 else |path| == 2 && Names(path[1], u.objectId.value)
    case Bootstrap => path == [BOOTSTRAP_SEGMENT] && u == Uri(Bootstrap, None, None, None)
    case DeleteAll => (path == [] || path[0] == "") && u == Uri(DeleteAll, None, None, None)
    case Dm => StandsForDm(path, u) && path[0] !in {REGISTRATION_SEGMENT, BOOTSTRAP_SEGMENT}
  }

  predicate StandsForDm(path: seq<string>, u: Uri) {
    && 1 <= |path| <= 3 && u.target == Dm && u.objectId.Some? && path[0] != "" && Names(path[0], u.objectId.value)
    && Spelled(path, 1, u.instanceId) && (u.instanceId.Some? ==> u.instanceId.value < MAX_ID)
    && Spelled(path, 2, u.resourceId) && (u.resourceId.Some? ==> u.instanceId.Some?)
  }

  lemma IdNames(segment: string, limit: int, id: uint16)
    requires limit <= 0xFFFF
    ensures Id(segment, limit) == Some(id) <==> Names(segment, id) && id <= limit
  {
    hide Names;
    NumberIs(segment, id);
  }

  lemma IdSpells(path: seq<string>, at: nat, limit: int, id: Option<uint16>)
    requires limit <= 0xFFFF && at < |path| && path[at] != ""
    ensures Id(path[at], limit) == id && id.Some? ==> Spelled(path, at, id) && id.value <= limit
    ensures id.Some? && Spelled(path, at, id) && id.value <= limit ==> Id(path[at], limit) == id
  {
    hide Names, Id;
    if id.Some? {
      IdNames(path[at], limit, id.value);
    }
  }

  lemma DmStandsFor(path: seq<string>, u: Uri)
    requires u.target == Dm
    ensures DecodeDm(path) == Some(u) <==> StandsForDm(path, u)
  {
    hide Names, Id;
    if path != [] && path[0] != "" {
      IdSpells(path, 0, 0xFFFF, u.objectId);
      if |path| > 1 && path[1] != "" {
        IdSpells(path, 1, 0xFFFE, u.instanceId);
      }
      if |path| > 2 && path[2] != "" {
        IdSpells(path, 2, 0xFFFF, u.resourceId);
      }
    }
  }

  /** Without an alternative path, exactly the paths that stand for something are decoded, to what they stand for. */
  lemma DecodesExactly(path: seq<string>, u: Uri)
    ensures DecodeUri(None, path) == Some(u) <==> StandsFor(path, u)
  {
    hide Names, Id, StandsForDm;
    if u.target == Dm {
      DmStandsFor(path, u);
    }
    DmIsDm(path);
    if |path| > 1 && u.objectId.Some? {
      IdNames(path[1], 0xFFFF, u.objectId.value);
    }
  }

  lemma DmIsDm(path: seq<string>)
    ensures DecodeDm(path).Some? ==> DecodeDm(path).value.target in {Dm, DeleteAll}
    ensures DecodeDm(path).Some? && DecodeDm(path).value.target == DeleteAll <==> path == [] || path[0] == ""
    ensures path == [] || path[0] == "" ==> DecodeDm(path) == Some(Uri(DeleteAll, None, None, None))
  {
    hide Id;
  }

  /** Below an alternative path, what stands behind its own segment is read as a path and everything else is refused,
      whatever is in memory behind it, if and only if the first segment is neither a proper prefix of it nor goes on
      with a NUL where it ends. What stands behind a proper prefix, or behind the alternative path and its terminator,
      is served as well; behind the terminator it depends on what memory holds. */
  lemma AltPathIsCutShort(text: string, segment: string)
    requires text != "" && NUL !in text && segment !in {REGISTRATION_SEGMENT, BOOTSTRAP_SEGMENT}
    ensures (forall behind, rest :: DecodeUri(Some(InMemory(text, behind)), [segment] + rest) ==
                                    if segment == text[1..] then DecodeDm(rest) else None)
       <==> !(segment < text[1..]) && !(text[1..] + [NUL] <= segment)
    ensures segment < text[1..] || segment == text[1..] + [NUL] ==>
      forall behind, rest :: DecodeUri(Some(InMemory(text, behind)), [segment] + rest) == DecodeDm(rest)
    ensures text[1..] + [NUL] < segment ==>
      && (exists behind :: forall rest :: DecodeUri(Some(InMemory(text, behind)), [segment] + rest) == DecodeDm(rest))
      && (exists behind :: forall rest :: DecodeUri(Some(InMemory(text, behind)), [segment] + rest) == None)
  {
    hide InMemory, DecodeUri, DecodeDm, Id;
    var name := text[1..];
    forall behind: string, rest: seq<string>
      ensures DecodeUri(Some(InMemory(text, behind)), [segment] + rest) ==
              if segment <= name + [NUL] + behind then DecodeDm(rest) else None
    {
      ServedBelow(text, behind, segment, rest);
    }
    NothingBehind();
    if name + [NUL] <= segment {
      var n := |name| + 1;
      assert segment == name + [NUL] + segment[n..];
      assert DecodeUri(Some(InMemory(text, segment[n..])), [segment] + []) == DecodeDm([]);
      assert !(segment <= name);
      if name + [NUL] < segment {
        assert !(segment <= name + [NUL] + "");
      }
    } else if segment < name {
      assert forall behind: string :: segment <= name + [NUL] + behind;
      assert DecodeUri(Some(InMemory(text, "")), [segment] + []) == DecodeDm([]);
    } else {
      forall behind: string ensures segment <= name + [NUL] + behind <==> segment == name {
        OnlyItself(segment, name, behind);
      }
    }
  }

  lemma OnlyItself(segment: string, name: string, behind: string)
    requires !(segment < name) && !(name + [NUL] <= segment)
    ensures segment <= name + [NUL] + behind <==> segment == name
  {
    var memory := name + [NUL] + behind;
    assert memory[..|name|] == name && memory[..|name| + 1] == name + [NUL];
  }

  lemma ServedBelow(text: string, behind: string, segment: string, rest: seq<string>)
    requires text != "" && segment !in {REGISTRATION_SEGMENT, BOOTSTRAP_SEGMENT}
    ensures DecodeUri(Some(InMemory(text, behind)), [segment] + rest) ==
            if segment <= text[1..] + [NUL] + behind then DecodeDm(rest) else None
  {
    hide Id;
    var memory := InMemory(text, behind);
    assert ([segment] + rest)[1..] == rest;
    assert memory[1..] == text[1..] + [NUL] + behind;
    assert |segment| < |memory| ==> memory[1..|segment| + 1] == memory[1..][..|segment|];
  }

  lemma NothingBehind()
    ensures DecodeDm([]).Some?
  {
  }

  /** Both kinds of segment that are taken for the alternative path "/lwm2m", whatever is behind it in memory. */
  lemma ServedInstead(behind: string)
    ensures DecodeUri(Some(InMemory("/lwm2m", behind)), ["lwm", "3"]) == Some(Uri(Dm, Some(3), None, None))
    ensures DecodeUri(Some(InMemory("/lwm2m", behind)), ["lwm2m" + [NUL], "3"]) == Some(Uri(Dm, Some(3), None, None))
  {
    var text := "/lwm2m";
    assert text[1..] == "lwm2m";
    assert "lwm" < text[1..] && NUL !in text;
    AltPathIsCutShort(text, "lwm");
    AltPathIsCutShort(text, "lwm2m" + [NUL]);
    assert ["lwm"] + ["3"] == ["lwm", "3"] && ["lwm2m" + [NUL]] + ["3"] == ["lwm2m" + [NUL], "3"];
    assert UpToSlash("3") == "3" && Value("3") == 3;
  }

  lemma TakeIdOfText(n: uint16, rest: string, limit: int)
    requires limit <= 0xFFFF
    ensures TakeId(ToText(n) + "/" + rest, limit) == if n <= limit then Some((n, rest)) else None
    ensures TakeId(ToText(n), limit) == if n <= limit then Some((n, "")) else None
  {
    var t := ToText(n);
    var s := t + "/" + rest;
    assert s == t + ("/" + rest);
    IdOfText(n, "/" + rest, limit);
    assert s[|t| + 1..] == rest;
    IdOfText(n, "", limit);
  }

  lemma SkipsNoSlash(s: string)
    requires s != "" && s[0] == '/'
    ensures SkipSpace(s) == s
  {
  }

  /** The path of a URI as text comes back exactly if it names an object, neither the instance nor the
      resource is 65535, and a resource comes with an instance. */
  lemma TextRoundTrip(u: Uri)
    requires u.target == Dm
    ensures StringToUri(Joined(Segments(None, u))) == Some(u) <==>
      && u.objectId.Some?
      && (u.instanceId.Some? ==> u.instanceId.value < MAX_ID)
      && (u.resourceId.Some? ==> u.instanceId.Some? && u.resourceId.value < MAX_ID)
  {
    hide ToText, Id, SkipSpace, TakeId;
    var text := Joined(Segments(None, u));
    if u.objectId.Some? {
      var o := ToText(u.objectId.value);
      if u.instanceId.None? && u.resourceId.None? {
        assert Segments(None, u) == [o];
        JoinedText(o, "", "");
        ObjectText(u.objectId.value, "");
      } else if u.resourceId.None? {
        var i := ToText(u.instanceId.value);
        assert Segments(None, u) == [o, i];
        JoinedText(o, i, "");
        ObjectText(u.objectId.value, i);
        TakeIdOfText(u.instanceId.value, "", 0xFFFE);
        NotEmpty(u.instanceId.value);
      } else {
        var r := ToText(u.resourceId.value);
        NotEmpty(u.resourceId.value);
        ResourceText(u.resourceId.value);
        if u.instanceId.None? {
          assert Segments(None, u) == [o, "", r];
          JoinedText(o, "", r);
          assert "" + "/" + r == "/" + r;
          ObjectText(u.objectId.value, "/" + r);
        } else {
          var i := ToText(u.instanceId.value);
          NotEmpty(u.instanceId.value);
          assert Segments(None, u) == [o, i, r];
          JoinedText(o, i, r);
          ObjectText(u.objectId.value, i + "/" + r);
          TakeIdOfText(u.instanceId.value, r, 0xFFFE);
        }
      }
    }
  }

  lemma JoinedText(a: string, b: string, c: string)
    ensures Joined([a]) == "/" + a
    ensures Joined([a, b]) == "/" + (a + "/" + b)
    ensures Joined([a, b, c]) == "/" + (a + "/" + (b + "/" + c))
  {
    assert [a, b, c][1..] == [b, c] && [b, c][1..] == [c] && [a, b][1..] == [b] && [c][1..] == [] && [a][1..] == [];
    assert Joined([c]) == "/" + c;
    assert Joined([b, c]) == "/" + b + ("/" + c);
    assert Joined([b]) == "/" + b;
  }

  lemma NotEmpty(n: uint16)
    ensures ToText(n) != "" && ToText(n)[0] != '/'
  {
    assert IsDigit(ToText(n)[0]);
  }

  lemma ResourceText(n: uint16)
    ensures UpToSlash(ToText(n)) == ToText(n)
    ensures Id(ToText(n), 0xFFFE) == if n < MAX_ID then Some(n) else None
  {
    IdOfText(n, "", 0xFFFE);
  }

  lemma ObjectText(n: uint16, rest: string)
    ensures var s := "/" + (ToText(n) + "/" + rest);
            SkipSpace(s) == s && |s| >= 2 && TakeId(s[1..], 0xFFFF) == Some((n, rest))
    ensures var s := "/" + ToText(n);
            SkipSpace(s) == s && |s| >= 2 && TakeId(s[1..], 0xFFFF) == Some((n, ""))
  {
    TakeIdOfText(n, rest, 0xFFFF);
    SkipsNoSlash("/" + (ToText(n) + "/" + rest));
    SkipsNoSlash("/" + ToText(n));
    assert ("/" + (ToText(n) + "/" + rest))[1..] == ToText(n) + "/" + rest;
    assert ("/" + ToText(n))[1..] == ToText(n);
  }

  // ---------- location paths ----------

  /** The segments coap_set_header_location_path and coap_set_header_uri_path cut a text into. */
  function Cut(path: string): seq<string> {
    CutRest(if path != "" && path[0] == '/' then path[1..] else path)
  }

  function CutRest(s: string): seq<string>
    decreases |s|
  {
    var t := UpToSlash(s);
    [t] + if |t| + 1 < |s| then CutRest(s[|t| + 1..]) else []
  }

  /** prv_getLocationString */
  function LocationText(id: uint16): string { "/rd/" + ToText(id) }

  /** The location given to a client at its registration leads back to the client's identifier. */
  lemma LocationRoundTrip(altPath: Option<string>, id: uint16)
    ensures DecodeUri(altPath, Cut(LocationText(id))) == Some(Uri(Registration, Some(id), None, None))
  {
    var t := ToText(id);
    assert LocationText(id)[1..] == "rd" + ("/" + t);
    UpToSlashAll("rd", "/" + t);
    assert ("rd" + ("/" + t))[3..] == t;
    IdOfText(id, "", 0xFFFF);
    assert CutRest(t) == [t];
    assert Cut(LocationText(id)) == ["rd", t];
  }

  // ---------- exactly which texts ----------

  predicate AllNumbers(segments: seq<string>) {
    forall k | 0 <= k < |segments| :: segments[k] != "" && AllDigits(segments[k])
  }

  /** The number of this place, or none if the path is shorter. */
  function Nth(segments: seq<string>, k: nat): Option<nat>
    requires AllNumbers(segments)
  {
    if k < |segments| then Some(Value(segments[k])) else None
  }

  predicate AtMost(id: Option<nat>, limit: nat) { id.Some? ==> id.value <= limit }

  /** A slash and one to three numbers with a slash between them, and maybe one behind the first or the second if it
      is the last; an object goes up to 65535, an instance and a resource up to 65534. */
  predicate Spells(text: string, u: Uri) {
    && |text| >= 2 && text[0] == '/' && u.target == Dm
    && var segments := CutRest(text[1..]);
    && 1 <= |segments| <= 3 && AllNumbers(segments) && (|segments| == 3 ==> text[|text| - 1] != '/')
    && Nth(segments, 0) == u.objectId && AtMost(Nth(segments, 0), 0xFFFF)
    && Nth(segments, 1) == u.instanceId && AtMost(Nth(segments, 1), 0xFFFE)
    && Nth(segments, 2) == u.resourceId && AtMost(Nth(segments, 2), 0xFFFE)
  }

  lemma CutIs(s: string)
    requires s != ""
    ensures var t := UpToSlash(s);
            CutRest(s) == [t] + if |t| + 1 < |s| then CutRest(s[|t| + 1..]) else []
    ensures CutRest(s) != [] && CutRest(s)[0] == UpToSlash(s)
    ensures |CutRest(s)| == 1 <==> |UpToSlash(s)| + 1 >= |s|
  {
    hide CutRest, UpToSlash;
    CutOnce(s);
    var t := UpToSlash(s);
    if |t| + 1 < |s| {
      SomeSegment(s[|t| + 1..]);
    }
  }

  lemma {:induction false} CutOnce(s: string)
    ensures var t := UpToSlash(s);
            CutRest(s) == [t] + if |t| + 1 < |s| then CutRest(s[|t| + 1..]) else []
  {
  }

  lemma {:induction false} SomeSegment(s: string)
    ensures CutRest(s) != []
  {
    hide UpToSlash;
  }

  predicate IsNumber(s: string, limit: nat) { s != "" && AllDigits(s) && Value(s) <= limit }

  /** The text behind a number that ends at a slash or at the end. */
  function BehindNumber(s: string): string {
    var t := UpToSlash(s);
    if |t| < |s| then s[|t| + 1..] else ""
  }

  lemma TakesId(s: string, limit: nat)
    requires s != "" && limit <= 0xFFFF
    ensures var t := UpToSlash(s);
            TakeId(s, limit) == if IsNumber(t, limit) then Some((Value(t), BehindNumber(s))) else None
  {
  }

  lemma LastResource(rest: string)
    requires rest != ""
    ensures UpToSlash(rest) == rest <==> |CutRest(rest)| == 1 && rest[|rest| - 1] != '/'
    ensures UpToSlash(rest) == rest ==> CutRest(rest) == [rest]
  {
    CutIs(rest);
    var t := UpToSlash(rest);
    if t == rest {
      assert rest[|rest| - 1] == t[|t| - 1];
    } else {
      assert rest[|t|] == '/';
    }
  }

  lemma NumbersCons(first: string, rest: seq<string>)
    ensures AllNumbers([first] + rest) <==> first != "" && AllDigits(first) && AllNumbers(rest)
  {
    var all := [first] + rest;
    assert all[0] == first && forall k | 0 < k < |all| :: all[k] == rest[k - 1];
    if AllNumbers(all) {
      assert forall k | 0 <= k < |rest| :: rest[k] == all[k + 1];
    }
  }

  lemma ReadsObject(text: string, u: Uri)
    requires |text| >= 2 && text[0] == '/' && BehindNumber(text[1..]) == ""
    ensures StringToUri(text) == Some(u) <==> Spells(text, u)
  {
    hide TakeId, CutRest, UpToSlash, AllDigits, Value, AllNumbers;
    var r := text[1..];
    CutIs(r);
    TakesId(r, 0xFFFF);
    assert SkipSpace(text) == text;
    NumbersCons(UpToSlash(r), []);
    NumbersOfNone();
    assert [UpToSlash(r)] + [] == [UpToSlash(r)];
  }

  lemma ReadsInstance(text: string, u: Uri)
    requires |text| >= 2 && text[0] == '/'
    requires var rest := BehindNumber(text[1..]); rest != "" && BehindNumber(rest) == ""
    ensures StringToUri(text) == Some(u) <==> Spells(text, u)
  {
    hide TakeId, CutRest, UpToSlash, AllDigits, Value, AllNumbers;
    var r, rest := text[1..], BehindNumber(text[1..]);
    CutIs(r);
    TakesId(r, 0xFFFF);
    CutIs(rest);
    TakesId(rest, 0xFFFE);
    assert SkipSpace(text) == text;
    NumbersCons(UpToSlash(r), CutRest(rest));
    NumbersCons(UpToSlash(rest), []);
    NumbersOfNone();
    assert [UpToSlash(rest)] + [] == [UpToSlash(rest)];
  }

  /** A text of at least three parts, of which the third is all that is left, is read part by part. */
  lemma ThreeParts(text: string, a: string, b: string, last: string)
    requires |text| >= 2 && text[0] == '/' && last != ""
    requires var rest := BehindNumber(text[1..]);
             rest != "" && a == UpToSlash(text[1..]) && b == UpToSlash(rest) && last == BehindNumber(rest)
    ensures StringToUri(text) ==
            if IsNumber(a, 0xFFFF) && IsNumber(b, 0xFFFE) && IsNumber(last, 0xFFFE) && UpToSlash(last) == last
            then Some(Uri(Dm, Some(Value(a)), Some(Value(b)), Some(Value(last)))) else None
  {
    hide TakeId, UpToSlash, BehindNumber, AllDigits, Value, Id, IsNumber;
    var r, rest := text[1..], BehindNumber(text[1..]);
    TakesId(r, 0xFFFF);
    TakesId(rest, 0xFFFE);
    IdOfNumber(last);
    assert SkipSpace(text) == text;
  }

  lemma ThreeSegments(text: string, a: string, b: string, last: string)
    requires |text| >= 2 && last != ""
    requires var rest := BehindNumber(text[1..]);
             rest != "" && a == UpToSlash(text[1..]) && b == UpToSlash(rest) && last == BehindNumber(rest)
    ensures CutRest(text[1..]) == [a, b] + CutRest(last)
    ensures text[|text| - 1] == last[|last| - 1]
  {
    hide CutRest, UpToSlash, BehindNumber;
    var r, rest := text[1..], BehindNumber(text[1..]);
    CutBehind(r);
    CutBehind(rest);
    assert [a] + ([b] + CutRest(last)) == [a, b] + CutRest(last);
    assert text[|text| - 1] == r[|r| - 1];
  }

  lemma CutBehind(s: string)
    requires s != "" && BehindNumber(s) != ""
    ensures CutRest(s) == [UpToSlash(s)] + CutRest(BehindNumber(s))
    ensures s[|s| - 1] == BehindNumber(s)[|BehindNumber(s)| - 1]
  {
    hide CutRest;
    CutIs(s);
  }

  lemma ReadsResource(text: string, u: Uri)
    requires |text| >= 2 && text[0] == '/'
    requires var rest := BehindNumber(text[1..]); rest != "" && BehindNumber(rest) != ""
    ensures StringToUri(text) == Some(u) <==> Spells(text, u)
  {
    hide StringToUri, CutRest, UpToSlash, AllDigits, Value, BehindNumber;
    var r, rest := text[1..], BehindNumber(text[1..]);
    var a, b, last := UpToSlash(r), UpToSlash(rest), BehindNumber(rest);
    ThreeParts(text, a, b, last);
    ThreeSegments(text, a, b, last);
    LastResource(last);
    CutIs(last);
    if UpToSlash(last) == last {
      assert CutRest(r) == [a, b, last];
    }
  }

  /** With or without spaces in front, exactly the texts that spell a path are read, as the path they spell. */
  lemma ReadsExactly(spaces: string, text: string, u: Uri)
    requires (forall c | c in spaces :: IsSpace(c)) && (text != "" ==> !IsSpace(text[0]))
    ensures StringToUri(spaces + text) == Some(u) <==> Spells(text, u)
  {
    hide Spells, TakeId, UpToSlash, IsSpace;
    SkipsSpaces(spaces, text);
    SkipsSpaces("", text);
    assert "" + text == text;
    if |text| < 2 || text[0] != '/' {
      Unspelled(text, u);
    } else if BehindNumber(text[1..]) == "" {
      ReadsObject(text, u);
    } else if BehindNumber(BehindNumber(text[1..])) == "" {
      ReadsInstance(text, u);
    } else {
      ReadsResource(text, u);
    }
  }

  lemma Unspelled(text: string, u: Uri)
    requires |text| < 2 || text[0] != '/'
    ensures !Spells(text, u)
  {
  }

  lemma NumbersOfNone()
    ensures AllNumbers([])
  {
  }

  lemma IdOfNumber(s: string)
    requires s != ""
    ensures UpToSlash(s) == s ==> Id(s, 0xFFFE) == if IsNumber(s, 0xFFFE) then Some(Value(s)) else None
  {
  }

  lemma SkipsSpaces(spaces: string, text: string)
    requires (forall c | c in spaces :: IsSpace(c)) && (text != "" ==> !IsSpace(text[0]))
    ensures SkipSpace(spaces + text) == text
  {
    assert forall i | 0 <= i < |spaces| :: (spaces + text)[i] == spaces[i] && spaces[i] in spaces;
    SkipSpaceIs(spaces + text, |spaces|);
  }

  // ---------- the C functions ----------

  lemma {:induction false} UpToSlashIs(s: string, k: nat)
    requires k <= |s| && (forall i | 0 <= i < k :: s[i] != '/') && (k < |s| ==> s[k] == '/')
    ensures UpToSlash(s) == s[..k]
  {
    if k > 0 {
      UpToSlashIs(s[1..], k - 1);
      assert s[..k] == [s[0]] + s[1..][..k - 1];
    }
  }

  lemma {:induction false} LetterInNumber(s: string, k: nat)
    requires k < |s| && (forall i | 0 <= i <= k :: s[i] != '/') && !IsDigit(s[k])
    ensures |UpToSlash(s)| > k && UpToSlash(s)[k] == s[k]
    ensures Number(s) == -1
  {
    if k > 0 {
      LetterInNumber(s[1..], k - 1);
    }
  }

  /** prv_parse_number. The C code also looks at the character behind an empty text, which must exist. */
  method ParseNumber(buffer: string, uriLength: nat, start: nat) returns (result: int, head: nat)
    requires start <= uriLength <= |buffer| && start < |buffer|
    ensures start < uriLength ==> result == Number(buffer[start..uriLength])
    ensures start == uriLength ==> result == if buffer[start] == '/' then -1 else 0
    ensures result >= 0 ==> head == start + |UpToSlash(buffer[start..uriLength])|
  {
    ghost var s := buffer[start..uriLength];
    head := start;
    if buffer[head] == '/' {
      return -1, head;
    }
    result := 0;
    while head < uriLength && buffer[head] != '/'
      invariant start <= head <= uriLength && forall i | 0 <= i < head - start :: s[i] != '/'
      invariant AllDigits(s[..head - start]) && result == 10 * Value(s[..head - start])
    {
      assert s[head - start] == buffer[head] && s[..head - start + 1] == s[..head - start] + [buffer[head]];
      if '0' <= buffer[head] <= '9' {
        ValueStep(s[..head - start + 1], head - start);
        assert s[..head - start + 1][..head - start] == s[..head - start];
        assert s[..head - start + 1][..head - start + 1] == s[..head - start + 1];
        result := result + DigitValue(buffer[head]);
        result := result * 10;
      } else {
        LetterInNumber(s, head - start);
        return -1, head;
      }
      head := head + 1;
    }
    UpToSlashIs(s, head - start);
    result := result / 10;
  }

  /** prv_get_number. For an empty text the C code looks at the byte behind it; it is taken not to be a
      slash. */
  method GetNumber(segment: string) returns (result: int)
    ensures result == Number(segment)
  {
    if segment == "" {
      return 0;
    }
    var head;
    result, head := ParseNumber(segment, |segment|, 0);
    assert segment[0..|segment|] == segment;
  }

  lemma NoMatch(segment: string, memory: string, i: nat)
    requires i < |segment| < |memory| && segment[i] != memory[i + 1]
    ensures !MatchesAltPath(segment, memory)
  {
    assert memory[1..|segment| + 1][i] == memory[i + 1];
  }

  /** lwm2m_decode_uri, over memory that goes on as far as the first segment makes it look. */
  method DecodeUriSteps(altPath: Option<string>, path: seq<string>) returns (uri: Option<Uri>)
    requires altPath.Some? ==> altPath.value != "" && (path != [] ==> |path[0]| < |altPath.value|)
    ensures uri == DecodeUri(altPath, path)
  {
    var at: nat := 0;
    var target := Dm;
    if path != [] && path[0] == REGISTRATION_SEGMENT {
      target := Registration;
      at := 1;
      if at == |path| {
        return Some(Uri(Registration, None, None, None));
      }
    } else if path != [] && path[0] == BOOTSTRAP_SEGMENT {
      return if |path| > 1 then None else Some(Uri(Bootstrap, None, None, None));
    }
    if target != Registration {
      if altPath.Some? {
        if path == [] {
          return None;
        }
        for i := 0 to |path[0]|
          invariant forall j | 0 <= j < i :: path[0][j] == altPath.value[j + 1]
        {
          if path[0][i] != altPath.value[i + 1] {
            NoMatch(path[0], altPath.value, i);
            return None;
          }
        }
        assert path[0] == altPath.value[1..|path[0]| + 1];
        at := 1;
      }
      assert DecodeUri(altPath, path) == DecodeDm(path[at..]);
      if at == |path| || path[at] == "" {
        return Some(Uri(DeleteAll, None, None, None));
      }
    }
    ghost var p := path[at..];
    var o := GetNumber(path[at]);
    if o < 0 || o > 0xFFFF {
      return None;
    }
    at := at + 1;
    if target == Registration {
      return if at < |path| then None else Some(Uri(Registration, Some(o), None, None));
    }
    if at == |path| {
      return Some(Uri(Dm, Some(o), None, None));
    }
    var instance: Option<uint16> := None;
    assert path[at] == p[1];
    if path[at] != "" {
      var i := GetNumber(path[at]);
      if i < 0 || i >= 0xFFFF {
        return None;
      }
      instance := Some(i);
    }
    at := at + 1;
    if at == |path| {
      return Some(Uri(Dm, Some(o), instance, None));
    }
    var resource: Option<uint16> := None;
    assert path[at] == p[2];
    if path[at] != "" {
      if instance.None? {
        return None;
      }
      var r := GetNumber(path[at]);
      if r < 0 || r > 0xFFFF {
        return None;
      }
      resource := Some(r);
    }
    return if at + 1 < |path| then None else Some(Uri(Dm, Some(o), instance, resource));
  }

  lemma {:induction false} SkipSpaceIs(s: string, k: nat)
    requires k <= |s| && (forall i | 0 <= i < k :: IsSpace(s[i])) && (k < |s| ==> !IsSpace(s[k]))
    ensures SkipSpace(s) == s[k..]
  {
    if k > 0 {
      SkipSpaceIs(s[1..], k - 1);
    } else {
      assert s[0..] == s;
    }
  }

  /** lwm2m_stringToUri: the number of characters read is the length of the text, or 0. The character
      behind the text, its terminator, is looked at and must not be a slash. */
  method StringToUriSteps(buffer: string, length: nat) returns (read: nat, uri: Option<Uri>)
    requires length < |buffer| && buffer[length] != '/'
    ensures uri == StringToUri(buffer[..length])
    ensures read == if uri.Some? then length else 0
  {
    hide Id, UpToSlash;
    ghost var s := buffer[..length];
    var head: nat := 0;
    while head < length && IsSpace(buffer[head])
      invariant head <= length && forall i | 0 <= i < head :: IsSpace(s[i])
    {
      head := head + 1;
    }
    SkipSpaceIs(s, head);
    ghost var t := s[head..];
    if head == length || buffer[head] != '/' {
      return 0, None;
    }
    head := head + 1;
    if head == length {
      return 0, None;
    }
    assert t[1..] == buffer[head..length];
    var o, i;
    o, head := TakeNumber(buffer, length, head, 0xFFFF);
    if o.None? {
      return 0, None;
    }
    if head >= length {
      return length, Some(Uri(Dm, o, None, None));
    }
    i, head := TakeNumber(buffer, length, head, 0xFFFE);
    if i.None? {
      return 0, None;
    }
    if head >= length {
      return length, Some(Uri(Dm, o, i, None));
    }
    ghost var last := buffer[head..length];
    var n;
    n, head := ParseNumber(buffer, length, head);
    IdIs(last, 0xFFFE);
    if n < 0 || n >= 0xFFFF {
      return 0, None;
    }
    UpToSlashLength(last);
    if head != length {
      return 0, None;
    }
    return length, Some(Uri(Dm, o, i, Some(n)));
  }

  lemma IdIs(s: string, limit: int)
    requires limit <= 0xFFFF
    ensures Id(s, limit) == if 0 <= Number(s) <= limit then Some(Number(s)) else None
  {
  }

  lemma UpToSlashLength(s: string)
    ensures UpToSlash(s) == s <==> |UpToSlash(s)| == |s|
  {
  }

  /** A number and the slash that may follow it. */
  method TakeNumber(buffer: string, length: nat, start: nat, limit: int) returns (id: Option<uint16>, head: nat)
    requires start < length < |buffer| && buffer[length] != '/' && limit <= 0xFFFF
    ensures match TakeId(buffer[start..length], limit)
            case None => id == None
            case Some(p) => id == Some(p.0) && start < head <= length && buffer[head..length] == p.1
    ensures start <= head <= length
  {
    ghost var s := buffer[start..length];
    var n;
    n, head := ParseNumber(buffer, length, start);
    if n < 0 || n > limit {
      return None, start;
    }
    assert head < length ==> s[head - start] == buffer[head];
    if buffer[head] == '/' {
      head := head + 1;
      assert s[head - start..] == buffer[head..length];
    }
    return Some(n), head;
  }
}
