/** The printer and the parser of registration payloads, over their buffers. */
module RegisterPayloadCode {
  import opened Core
  import opened DecimalText
  import opened RegisterPayload
  import U = Uri

  // ---------- printing ----------

  /** snprintf of a text of this length: what does not fit is dropped and a NUL ends what does. */
  method SnPrintf(buffer: array<char>, at: nat, text: string)
    requires at <= buffer.Length
    modifies buffer
    ensures forall i | 0 <= i < at :: buffer[i] == old(buffer[i])
    ensures at < buffer.Length ==>
      var n := if |text| < buffer.Length - at then |text| else buffer.Length - at - 1;
      buffer[at..at + n] == text[..n] && buffer[at + n] == NUL
  {
    if at < buffer.Length {
      var i := 0;
      while i < |text| && at + i < buffer.Length - 1
        invariant 0 <= i <= |text| && at + i <= buffer.Length - 1
        invariant forall k | 0 <= k < at :: buffer[k] == old(buffer[k])
        invariant buffer[at..at + i] == text[..i]
      {
        buffer[at + i] := text[i];
        i := i + 1;
      }
      buffer[at + i] := NUL;
    }
  }

  /** The buffer holds a text; its last character may have been dropped for want of room. */
  ghost predicate Holds(buffer: array<char>, text: string)
    reads buffer
  {
    |text| <= buffer.Length && forall i | 0 <= i < |text| && i < buffer.Length - 1 :: buffer[i] == text[i]
  }

  /** One snprintf of prv_getRegisterPayload, and the check of its result. */
  method Append(buffer: array<char>, index: nat, text: string, ghost before: string) returns (ok: bool, next: nat)
    requires text != "" && index == |before| && Holds(buffer, before)
    modifies buffer
    ensures ok == (index + |text| <= buffer.Length)
    ensures ok ==> next == index + |text| && Holds(buffer, before + text)
  {
    SnPrintf(buffer, index, text);
    if |text| <= buffer.Length - index {
      assert forall i | 0 <= i < |before + text| && i < buffer.Length - 1 :: buffer[i] == (before + text)[i] by {
        var n := if |text| < buffer.Length - index then |text| else buffer.Length - index - 1;
        assert forall i | index <= i < index + n :: buffer[i] == buffer[index..index + n][i - index];
      }
      return true, index + |text|;
    }
    return false, index;
  }

  lemma {:induction false} TextAppend(alt: string, a: seq<Link>, b: seq<Link>)
    ensures LinksText(alt, a + b) == LinksText(alt, a) + LinksText(alt, b)
  {
    hide LinkText;
    if a == [] {
      assert a + b == b;
    } else {
      assert (a + b)[1..] == a[1..] + b;
      TextAppend(alt, a[1..], b);
    }
  }

  /** The loop over the instances of an object. */
  method AppendInstances(buffer: array<char>, start: nat, alt: string, id: uint16, instances: seq<uint16>,
                         ghost before: string)
    returns (ok: bool, index: nat)
    requires start == |before| && Holds(buffer, before)
    modifies buffer
    ensures var text := LinksText(alt, InstanceLinks(id, instances));
            ok == (start + |text| <= buffer.Length)
            && (ok ==> index == start + |text| && Holds(buffer, before + text))
  {
    hide LinkText;
    index := start;
    ok := true;
    var j := 0;
    ghost var done := "";
    ghost var text := LinksText(alt, InstanceLinks(id, instances));
    while j < |instances|
      invariant 0 <= j <= |instances|
      invariant text == done + LinksText(alt, InstanceLinks(id, instances[j..]))
      invariant index == start + |done| && Holds(buffer, before + done)
    {
      var l := Link(id, Some(instances[j]));
      assert instances[j..][0] == instances[j] && instances[j..][1..] == instances[j + 1..];
      var entry := LinkText(alt, l) + ",";
      assert text == done + entry + LinksText(alt, InstanceLinks(id, instances[j + 1..]));
      ok, index := Append(buffer, index, entry, before + done);
      if !ok {
        return;
      }
      assert before + (done + entry) == before + done + entry;
      done := done + entry;
      j := j + 1;
    }
    assert text == done;
  }

  /** One object of the loop over the objects. */
  method AppendObject(buffer: array<char>, start: nat, alt: string, o: Object, ghost before: string)
    returns (ok: bool, index: nat)
    requires start == |before| && Holds(buffer, before)
    modifies buffer
    ensures var text := LinksText(alt, ObjectLinks(o));
            ok == (start + |text| <= buffer.Length)
            && (ok ==> index == start + |text| && Holds(buffer, before + text))
  {
    hide LinkText;
    if o.id == SECURITY_OBJECT {
      assert before + "" == before;
      return true, start;
    }
    if o.instances == [] {
      assert LinksText(alt, [Link(o.id, None)]) == LinkText(alt, Link(o.id, None)) + ",";
      ok, index := Append(buffer, start, LinkText(alt, Link(o.id, None)) + ",", before);
    } else {
      ok, index := AppendInstances(buffer, start, alt, o.id, o.instances, before);
    }
  }

  /** The loop over the objects. */
  method AppendObjects(buffer: array<char>, start: nat, alt: string, objects: seq<Object>, ghost before: string)
    returns (ok: bool, index: nat)
    requires start == |before| && Holds(buffer, before)
    modifies buffer
    ensures var text := LinksText(alt, AllLinks(objects));
            ok == (start + |text| <= buffer.Length)
            && (ok ==> index == start + |text| && Holds(buffer, before + text))
  {
    hide LinksText, ObjectLinks;
    index := start;
    ok := true;
    ghost var done := "";
    ghost var text := LinksText(alt, AllLinks(objects));
    var i := 0;
    assert objects[0..] == objects;
    while i < |objects|
      invariant 0 <= i <= |objects|
      invariant text == done + LinksText(alt, AllLinks(objects[i..]))
      invariant index == start + |done| && Holds(buffer, before + done)
    {
      assert objects[i..][0] == objects[i] && objects[i..][1..] == objects[i + 1..];
      ghost var entry := LinksText(alt, ObjectLinks(objects[i]));
      TextAppend(alt, ObjectLinks(objects[i]), AllLinks(objects[i + 1..]));
      ok, index := AppendObject(buffer, index, alt, objects[i], before + done);
      if !ok {
        return;
      }
      assert before + (done + entry) == before + done + entry;
      done := done + entry;
      i := i + 1;
    }
    assert LinksText(alt, []) == "" by { NoTextFor(alt); }
    assert text == done;
  }

  lemma NoTextFor(alt: string)
    ensures LinksText(alt, []) == ""
  {
  }

  /** prv_getRegisterPayload */
  method GetRegisterPayload(altPath: Option<string>, objects: seq<Object>, buffer: array<char>) returns (index: nat)
    requires buffer.Length > 0
    modifies buffer
    ensures index == |Print(altPath, objects, buffer.Length)| < buffer.Length
    ensures buffer[..index] == Print(altPath, objects, buffer.Length)
    ensures index > 0 ==> buffer[index] == NUL
  {
    hide LinksText, AllLinks;
    index := 0;
    ghost var done := AltText(altPath);
    var ok := true;
    if altPath.Some? && altPath.value != "" {
      assert "" + done == done;
      ok, index := Append(buffer, 0, "<" + altPath.value + RESOURCE_TYPE, "");
      if !ok {
        return 0;
      }
    }
    ok, index := AppendObjects(buffer, index, Prefix(altPath), objects, done);
    if !ok {
      return 0;
    }
    if index > 0 {
      index := index - 1;
    }
    buffer[index] := NUL;
  }

  // ---------- parsing ----------

  lemma {:induction false} SkipSpacesIs(s: string, k: nat)
    requires k <= |s| && (forall i | 0 <= i < k :: s[i] == ' ') && (k < |s| ==> s[k] != ' ')
    ensures SkipSpaces(s) == s[k..]
  {
    if k > 0 {
      SkipSpacesIs(s[1..], k - 1);
    }
  }

  method SkipSpacesFrom(payload: array<char>, from: nat) returns (start: nat)
    requires from <= payload.Length
    ensures from <= start <= payload.Length && payload[start..] == SkipSpaces(payload[from..])
  {
    start := from;
    while start < payload.Length && payload[start] == ' '
      invariant from <= start <= payload.Length && forall i | from <= i < start :: payload[i] == ' '
    {
      start := start + 1;
    }
    SkipSpacesIs(payload[from..], start - from);
  }

  lemma {:induction false} UpToIs(s: string, a: char, b: char, k: nat)
    requires k <= |s| && (forall i | 0 <= i < k :: s[i] != a && s[i] != b) && (k < |s| ==> s[k] == a || s[k] == b)
    ensures UpTo(s, a, b) == s[..k]
  {
    if k > 0 {
      UpToIs(s[1..], a, b, k - 1);
      assert s[..k] == [s[0]] + s[1..][..k - 1];
    }
  }

  /** The loops that look for a delimiter. */
  method Find(payload: array<char>, from: nat, to: nat, a: char, b: char) returns (end: nat)
    requires from <= to <= payload.Length
    ensures from <= end <= to && payload[from..end] == UpTo(payload[from..to], a, b)
  {
    end := from;
    while end < to && payload[end] != a && payload[end] != b
      invariant from <= end <= to && forall i | from <= i < end :: payload[i] != a && payload[i] != b
    {
      end := end + 1;
    }
    UpToIs(payload[from..to], a, b, end - from);
    assert payload[from..to][..end - from] == payload[from..end];
  }

  /** prv_getId, for the text from start on. */
  method ReadLink(payload: array<char>, start: nat, size: nat, altPath: Option<string>, altPathLen: nat)
    returns (l: Option<Link>)
    requires start + size <= payload.Length
    ensures l == GetId(payload[start..start + size], altPath, altPathLen)
  {
    hide GetNumbers;
    ghost var e := payload[start..start + size];
    var data, length := start, size;
    if length >= 1 && payload[data] == '<' && payload[data + length - 1] == '>' {
      data := data + 1;
      length := length - 2;
    } else {
      return None;
    }
    assert payload[data..data + length] == e[1..|e| - 1];
    if altPath.Some? {
      if length <= altPathLen {
        return None;
      }
      if !Begins(payload[data..data + length], altPath.value, altPathLen) {
        return None;
      }
      assert payload[data + altPathLen..data + length] == e[1..|e| - 1][altPathLen..];
      data := data + altPathLen;
      length := length - altPathLen;
    }
    l := ReadNumbers(payload, data, length);
  }

  /** The instance number of prv_getId, from limit on. */
  method ReadInstance(payload: array<char>, limit: nat, to: nat) returns (inst: Option<uint16>)
    requires limit <= to <= payload.Length
    ensures inst == InstanceOf(payload[limit..to])
  {
    hide UpTo, U.Number;
    var end := Find(payload, limit, to, ' ', ' ');
    if end != limit {
      var value := U.GetNumber(payload[limit..end]);
      if value >= 0 && value < MAX_ID {
        return Some(value);
      }
    }
    return None;
  }

  /** The rest of prv_getId. */
  method ReadNumbers(payload: array<char>, start: nat, size: nat) returns (l: Option<Link>)
    requires start + size <= payload.Length
    ensures l == GetNumbers(payload[start..start + size])
  {
    hide UpTo, U.Number, InstanceOf, Unslashed, GetNumbers;
    UnslashedAt(payload[start..start + size]);
    var data, to := start, start + size;
    if data < to && payload[data] == '/' {
      data := data + 1;
    }
    ghost var path := payload[data..to];
    assert path == Unslashed(payload[start..start + size]);
    var limit := Find(payload, data, to, '/', ' ');
    var value := if data < to && payload[data] == '/' then -1 else U.Number(payload[data..limit]);
    assert payload[data..limit] == path[..limit - data];
    NumbersAre(payload[start..start + size], path, limit - data, value);
    if value < 0 || value >= MAX_ID {
      return None;
    }
    if limit == to {
      return Some(Link(value, None));
    }
    assert payload[limit + 1..to] == path[limit - data + 1..];
    var inst := ReadInstance(payload, limit + 1, to);
    return Some(Link(value, inst));
  }

  lemma NumbersAre(data: string, path: string, n: nat, value: int)
    requires path == Unslashed(data) && n <= |path| && UpTo(path, '/', ' ') == path[..n]
    requires value == if path != "" && path[0] == '/' then -1 else U.Number(path[..n])
    ensures GetNumbers(data) ==
            if value < 0 || value >= MAX_ID then None
            else Some(Link(value, if n == |path| then None else InstanceOf(path[n + 1..])))
  {
    hide UpTo, U.Number, InstanceOf, Unslashed;
  }

  lemma UnslashedAt(data: string)
    ensures Unslashed(data) == if data != "" && data[0] == '/' then data[1..] else data
  {
  }

  /** One round of the loop over the links of s. */
  lemma ReadStep(objects: seq<Object>, s: string, e: string, altPath: Option<string>, n: nat)
    requires SkipSpaces(s) != "" && e == UpTo(SkipSpaces(s), ',', ',')
    ensures var l := GetId(e, altPath, n);
            AddLinks(objects, Links(s, altPath, n)) ==
            AddLinks(if l.Some? then AddLink(objects, l.value) else objects,
                     Links(Behind(SkipSpaces(s), |e| + 1), altPath, n))
  {
    hide GetId, AddLink, UpTo, SkipSpaces;
    var l := GetId(e, altPath, n);
    var more := Links(Behind(SkipSpaces(s), |e| + 1), altPath, n);
    if l.Some? {
      assert Links(s, altPath, n) == [l.value] + more;
      assert ([l.value] + more)[1..] == more;
    } else {
      assert Links(s, altPath, n) == [] + more;
      assert [] + more == more;
    }
  }

  /** One round of the loop over the links, from start on. */
  method ReadOne(payload: array<char>, from: nat, altPath: Option<string>, altPathLen: nat, read: seq<Object>)
    returns (objects: seq<Object>, next: nat)
    requires from < payload.Length
    ensures next > from
    ensures AddLinks(objects, Links(Behind(payload[..], next), altPath, altPathLen))
         == AddLinks(read, Links(payload[from..], altPath, altPathLen))
  {
    hide GetId, UpTo, AddLink, AddLinks, Links, SkipSpaces;
    objects := read;
    var start := SkipSpacesFrom(payload, from);
    if start == payload.Length {
      OnlySpaces(payload[from..], altPath, altPathLen);
      OnlySpaces("", altPath, altPathLen);
      return read, start;
    }
    var end := Find(payload, start, payload.Length, ',', ',');
    assert payload[start..payload.Length] == payload[start..];
    var l := ReadLink(payload, start, end - start, altPath, altPathLen);
    assert payload[start..start + (end - start)] == payload[start..end];
    ReadStep(read, payload[from..], payload[start..end], altPath, altPathLen);
    assert Behind(payload[start..], end - start + 1) == Behind(payload[..], end + 1);
    next := end + 1;
    if l.Some? {
      objects := AddLink(read, l.value);
    }
  }

  /** The second part of prv_decodeRegisterPayload: the links from start on. */
  method ReadAll(payload: array<char>, from: nat, altPath: Option<string>, altPathLen: nat)
    returns (objects: seq<Object>)
    requires from <= payload.Length
    ensures objects == AddLinks([], Links(payload[from..], altPath, altPathLen))
  {
    hide AddLinks, Links;
    objects := [];
    var start := from;
    assert Behind(payload[..], from) == payload[from..];
    while start < payload.Length
      invariant from <= start
      invariant AddLinks([], Links(payload[from..], altPath, altPathLen)) ==
                AddLinks(objects, Links(Behind(payload[..], start), altPath, altPathLen))
      decreases payload.Length - start
    {
      assert Behind(payload[..], start) == payload[start..];
      objects, start := ReadOne(payload, start, altPath, altPathLen, objects);
    }
    OnlySpaces("", altPath, altPathLen);
    OnlyAdds(objects);
  }

  lemma OnlySpaces(s: string, altPath: Option<string>, n: nat)
    requires s == "" || SkipSpaces(s) == ""
    ensures Links(s, altPath, n) == []
  {
  }

  lemma OnlyAdds(objects: seq<Object>)
    ensures AddLinks(objects, []) == objects
  {
  }

  /** The loop that looks for the end of the first link, but not at the last character. */
  method FindClose(payload: array<char>, from: nat) returns (start: nat)
    requires from < payload.Length
    ensures start == FirstClose(payload[..], from)
  {
    start := from;
    while start < payload.Length - 1 && payload[start] != '>'
      invariant from <= start < payload.Length && FirstClose(payload[..], from) == FirstClose(payload[..], start)
    {
      start := start + 1;
    }
  }

  /** The first part of prv_decodeRegisterPayload, where the index of the end of the path is 16 bits wide. */
  method FindHeader(payload: array<char>) returns (h: Header)
    requires payload.Length < 0xFFFF
    ensures h == ReadHeader(payload[..])
  {
    hide HasType, SkipSpaces, FirstClose;
    assert payload[0..] == payload[..];
    var start := SkipSpacesFrom(payload, 0);
    if start == payload.Length {
      return Plain;
    }
    var altPathStart := 0;
    if payload[start] == '<' {
      altPathStart := start + 1;
    }
    start := FindClose(payload, start);
    if start == payload.Length - 1 {
      return Plain;
    }
    var altPathEnd: uint16 := if start > 0 then start - 1 else 0xFFFF;
    TypeFits(payload[..], altPathEnd + 1);
    if payload.Length > altPathEnd + |RESOURCE_TYPE| && HasType(payload[..], altPathEnd + 1) {
      return Alternative(altPathStart, altPathEnd + 1 - altPathStart);
    }
    return Plain;
  }

  /** prv_decodeRegisterPayload. It ends the path it finds with a NUL, in the payload. */
  method DecodeRegisterPayload(payload: array<char>) returns (altPath: Option<string>, objects: seq<Object>)
    requires payload.Length < 0xFFFF
    modifies payload
    ensures (altPath, objects) == Decode(old(payload[..]))
    ensures var s := old(payload[..]);
            payload[..] == match ReadHeader(s) case Plain => s case Alternative(start, n) => s[start + n := NUL]
  {
    hide Links, AddLinks, ReadHeader, IsAltPathValid;
    ghost var s := payload[..];
    var h := FindHeader(payload);
    match h {
      case Plain =>
        objects := ReadAll(payload, 0, None, 0);
        altPath := None;
        assert payload[0..] == s;
      case Alternative(start, n) =>
        altPath := Some(CString(payload[start..start + n]));
        assert payload[start..start + n] == s[start..start + n];
        payload[start + n] := NUL;
        if !IsAltPathValid(altPath.value) {
          objects := [];
          return;
        }
        if n == 1 {
          altPath := None;
        }
        var from := start + n + |RESOURCE_TYPE|;
        assert payload[from..] == s[from..];
        objects := ReadAll(payload, from, altPath, n);
    }
  }
}
