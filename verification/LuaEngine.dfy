/**
 Handling one request in a Lua state (src/core/lua_engine.cpp): the Lua stack
 discipline, the tables handed to the handler, and the response read back.
*/
module LuaEngine {
  import opened Common
  import StringSplit

  // ----- Lua values

  /** A table lists its entries in the order in which `lua_next` visits them. */
  datatype Value =
    | Nil
    | Boolean(b: bool)
    | Number(r: real)
    | Str(s: string)
    | Function(f: nat)
    | Table(entries: seq<Entry>)
    | Other(id: nat)

  datatype Entry = Entry(key: Value, value: Value)

  const TRACEBACK: Value := Function(0)

  /** The position of a key, or the number of entries. */
  function IndexOf(es: seq<Entry>, k: Value): (i: nat)
    ensures i <= |es| && (i < |es| ==> es[i].key == k)
    ensures forall j :: 0 <= j < i ==> es[j].key != k
  {
    if es == [] || es[0].key == k then 0 else 1 + IndexOf(es[1..], k)
  }

  function Get(es: seq<Entry>, k: Value): Value {
    var i := IndexOf(es, k);
    if i < |es| then es[i].value else Nil
  }

  function Set(es: seq<Entry>, k: Value, v: Value): seq<Entry> {
    var i := IndexOf(es, k);
    if i < |es| then es[i := Entry(k, v)] else es + [Entry(k, v)]
  }

  lemma IndexIs(es: seq<Entry>, k: Value, i: nat)
    requires i <= |es| && (i < |es| ==> es[i].key == k) && forall j :: 0 <= j < i ==> es[j].key != k
    ensures IndexOf(es, k) == i
  {
  }

  lemma GetSet(es: seq<Entry>, k: Value, v: Value, k2: Value)
    ensures Get(Set(es, k, v), k2) == if k2 == k then v else Get(es, k2)
  {
    var i, i2 := IndexOf(es, k), IndexOf(es, k2);
    var r := Set(es, k, v);
    if k2 == k {
      IndexIs(r, k2, i);
    } else if i2 < |es| {
      IndexIs(r, k2, i2);
    } else {
      IndexIs(r, k2, |r|);
    }
  }

  function Field(t: Value, name: string): Value {
    if t.Table? then Get(t.entries, Str(name)) else Nil
  }

  /** What `lua_isstring` accepts. */
  predicate IsString(v: Value) {
    v.Str? || v.Number?
  }

  /** `lua_tointeger` cuts the fraction off. */
  function Truncated(r: real): int {
    if r >= 0.0 then r.Floor else -((-r).Floor)
  }

  /** A field read is the value stored under that key, or nil. */
  lemma FieldIs(es: seq<Entry>, name: string, i: nat)
    requires i < |es| && es[i].key == Str(name) && forall j :: 0 <= j < i ==> es[j].key != Str(name)
    ensures Field(Table(es), name) == es[i].value
  {
    IndexIs(es, Str(name), i);
  }

  lemma FieldMissing(es: seq<Entry>, name: string)
    requires forall j :: 0 <= j < |es| ==> es[j].key != Str(name)
    ensures Field(Table(es), name) == Nil
  {
    IndexIs(es, Str(name), |es|);
  }

  /** The whole number next to `r` on the side of 0. */
  lemma TruncatedIs(r: real)
    ensures r >= 0.0 ==> 0.0 <= Truncated(r) as real <= r < Truncated(r) as real + 1.0
    ensures r < 0.0 ==> Truncated(r) as real - 1.0 < r <= Truncated(r) as real <= 0.0
  {
  }

  // ----- the Lua stack

  datatype Stack = Empty | Push(top: Value, below: Stack)

  function Depth(s: Stack): nat {
    if s.Empty? then 0 else 1 + Depth(s.below)
  }

  /** The value at an absolute index, counted from 1 at the bottom. */
  function At(s: Stack, i: nat): Value {
    if s.Empty? then Nil else if i == Depth(s) then s.top else At(s.below, i)
  }

  lemma {:induction false} AtIsInside(s: Stack, i: nat)
    requires At(s, i) != Nil
    ensures 0 < i <= Depth(s)
  {
    if s.Push? && i != Depth(s) {
      AtIsInside(s.below, i);
    }
  }

  /** Indices count from the bottom, from 1 to the height. */
  lemma AtIs(v: Value, s: Stack, i: nat)
    ensures Depth(Empty) == 0 && Depth(Push(v, s)) == Depth(s) + 1
    ensures At(Push(v, s), Depth(s) + 1) == v
    ensures i <= Depth(s) ==> At(Push(v, s), i) == At(s, i)
  {
  }

  // ----- requests

  /** Headers in the order of the header iterator. */
  datatype Request = Request(
    httpMethod: string, proto: string, host: string, path: string,
    headers: seq<(string, string)>, content: string,
    address: string, v4: bool)

  /** What a C string function sees of a string. */
  function CStr(s: string): string {
    CString(s, '\0')
  }

  /** The value of the last header whose name reads `name`: later ones overwrite it. */
  function LastHeader(headers: seq<(string, string)>, name: string): Value {
    if headers == [] then Nil
    else
      var last := headers[|headers| - 1];
      if CStr(last.0) == name then Str(CStr(last.1)) else LastHeader(headers[..|headers| - 1], name)
  }

  /** What a C string function sees: the text before the first zero character. */
  lemma CStrIs(s: string)
    ensures CStr(s) <= s && '\0' !in CStr(s) && (|CStr(s)| < |s| ==> s[|CStr(s)|] == '\0')
  {
  }

  /** The last header of a name has its value; without any there is none. */
  lemma {:induction false} LastHeaderIs(headers: seq<(string, string)>, name: string, i: nat)
    ensures
      && i < |headers| && CStr(headers[i].0) == name
      && (forall j :: i < j < |headers| ==> CStr(headers[j].0) != name) ==>
        LastHeader(headers, name) == Str(CStr(headers[i].1))
    ensures (forall j :: 0 <= j < |headers| ==> CStr(headers[j].0) != name) ==> LastHeader(headers, name) == Nil
  {
    if headers != [] {
      var n := |headers| - 1;
      LastHeaderIs(headers[..n], name, i);
    }
  }

  ghost predicate IsHeaderTable(t: Value, headers: seq<(string, string)>) {
    && t.Table?
    && (forall k: Value :: !k.Str? ==> Get(t.entries, k) == Nil)
    && (forall name: string :: Get(t.entries, Str(name)) == LastHeader(headers, name))
  }

  /** The value of the first header of that name. */
  function FirstHeader(headers: seq<(string, string)>, name: string): Option<string> {
    if headers == [] then None
    else if headers[0].0 == name then Some(headers[0].1)
    else FirstHeader(headers[1..], name)
  }

  /** The first header of a name has its value; without any there is none. */
  lemma {:induction false} FirstHeaderIs(headers: seq<(string, string)>, name: string, i: nat)
    ensures i < |headers| && headers[i].0 == name && (forall j :: 0 <= j < i ==> headers[j].0 != name) ==>
      FirstHeader(headers, name) == Some(headers[i].1)
    ensures (forall j :: 0 <= j < |headers| ==> headers[j].0 != name) ==> FirstHeader(headers, name) == None
  {
    if headers != [] && headers[0].0 != name {
      FirstHeaderIs(headers[1..], name, if i == 0 then 0 else i - 1);
    }
  }

  function CookieParts(cookies: string): seq<string> {
    StringSplit.Split(cookies, ";", -1)
  }

  function WithoutSpaces(s: string): string {
    if s != [] && s[0] == ' ' then WithoutSpaces(s[1..]) else s
  }

  /** The parts have no semicolon and, joined by semicolons, give the string back. */
  lemma CookiePartsAre(cookies: string)
    ensures CookieParts(cookies) != [] && StringSplit.Join(CookieParts(cookies), ";") == cookies
    ensures forall i :: 0 <= i < |CookieParts(cookies)| ==> ';' !in CookieParts(cookies)[i]
  {
    StringSplit.JoinSplit(cookies, ";", -1);
    StringSplit.PiecesFree(cookies, ";", -1);
    forall i | 0 <= i < |CookieParts(cookies)|
      ensures ';' !in CookieParts(cookies)[i]
    {
      var part := CookieParts(cookies)[i];
      assert !StringSplit.Occurs(part, ";");
      if ';' in part {
        var k :| 0 <= k < |part| && part[k] == ';';
        assert part[k..k + 1] == ";";
        assert StringSplit.OccursAt(part, ";", k);
      }
    }
  }

  /** Leading spaces, all of them and nothing else, are cut off. */
  lemma {:induction false} WithoutSpacesIs(s: string) returns (k: nat)
    ensures k <= |s| && WithoutSpaces(s) == s[k..]
    ensures (forall i :: 0 <= i < k ==> s[i] == ' ') && (k < |s| ==> s[k] != ' ')
  {
    if s != [] && s[0] == ' ' {
      var k2 := WithoutSpacesIs(s[1..]);
      k := k2 + 1;
      assert s[1..][k2..] == s[k..];
    } else {
      k := 0;
    }
  }

  /** The text before the first `=`, without leading spaces; empty if the part has no
      `=` or begins with it. */
  function CookieName(part: string): string {
    var eq := StringSplit.Find(part, "=");
    if eq.None? then [] else WithoutSpaces(part[..eq.value])
  }

  lemma CookieNameIs(part: string, eq: nat)
    ensures eq < |part| && part[eq] == '=' && (forall j :: 0 <= j < eq ==> part[j] != '=') ==>
      CookieName(part) == WithoutSpaces(part[..eq])
    ensures '=' !in part ==> CookieName(part) == []
  {
    var found := StringSplit.Find(part, "=");
    if found.Some? {
      assert part[found.value..found.value + 1][0] == '=';
    }
    if eq < |part| && part[eq] == '=' && forall j :: 0 <= j < eq ==> part[j] != '=' {
      assert part[eq..eq + 1] == "=";
      assert StringSplit.OccursAt(part, "=", eq);
      assert found.value == eq by {
        assert part[found.value] == '=';
      }
    }
  }

  ghost predicate NamesCookie(parts: seq<string>, name: string) {
    name != [] && exists i :: 0 <= i < |parts| && CookieName(parts[i]) == name
  }

  ghost predicate HoldsCookie(es: seq<Entry>, parts: seq<string>, name: string) {
    var v := Get(es, Str(name));
    if NamesCookie(parts, name) then v.Str? else v == Nil
  }

  /** The keys are exactly the non-empty cookie names; the values are strings. */
  ghost predicate IsCookieTable(t: Value, parts: seq<string>) {
    && t.Table?
    && (forall k: Value :: !k.Str? ==> Get(t.entries, k) == Nil)
    && (forall name: string :: HoldsCookie(t.entries, parts, name))
  }

  /** The table has exactly these fields. */
  ghost predicate HasFields(t: Value, m: map<string, Value>) {
    t.Table? && forall k: Value :: Get(t.entries, k) == if k.Str? && k.s in m then m[k.s] else Nil
  }

  lemma SetFields(t: Value, m: map<string, Value>, name: string, v: Value)
    requires HasFields(t, m)
    ensures HasFields(Table(Set(t.entries, Str(name), v)), m[name := v])
  {
    forall k: Value
      ensures Get(Set(t.entries, Str(name), v), k) == if k == Str(name) then v else Get(t.entries, k)
    {
      GetSet(t.entries, Str(name), v, k);
    }
  }

  function RequestFields(req: Request, now: int, headers: Value): map<string, Value> {
    map[
      "timestamp" := Number(now as real),
      "method" := Str(CStr(req.httpMethod)),
      "proto" := Str(CStr(req.proto)),
      "host" := Str(CStr(req.host)),
      "path" := Str(CStr(req.path)),
      "headers" := headers,
      "remote_addr_str" := Str(CStr(req.address)),
      "remote_addr_ip_ver" := Number(if req.v4 then 4.0 else 6.0)]
  }

  /** With `cookies` if the request has a cookie header and `content` for a POST. */
  function AllRequestFields(req: Request, now: int, headers: Value, cookies: Value): map<string, Value> {
    var m := RequestFields(req, now, headers);
    var m2 := if FirstHeader(req.headers, "cookie").Some? then m["cookies" := cookies] else m;
    if req.httpMethod == "POST" then m2["content" := Str(req.content)] else m2
  }

  ghost predicate AreCookies(t: Value, req: Request) {
    var c := FirstHeader(req.headers, "cookie");
    c.Some? ==> IsCookieTable(t, CookieParts(c.value))
  }

  ghost predicate IsRequestTable(t: Value, req: Request, now: int) {
    exists headers, cookies ::
      && IsHeaderTable(headers, req.headers)
      && AreCookies(cookies, req)
      && HasFields(t, AllRequestFields(req, now, headers, cookies))
  }

  /** The response a handler starts from. */
  ghost predicate IsEmptyResponse(t: Value) {
    HasFields(t, map["status" := Number(200.0), "content" := Str(""), "headers" := Table([])])
  }

  /** Names of the same length that differ. */
  lemma NamesDiffer()
    ensures "host" != "path" && "headers" != "cookies" && "headers" != "content" && "cookies" != "content"
  {
    assert "host"[0] != "path"[0] && "headers"[0] != "cookies"[0] && "headers"[0] != "content"[0];
    assert "cookies"[2] != "content"[2];
  }

  lemma OtherNames(name: string)
    requires name in
      {"timestamp", "method", "proto", "host", "path", "headers", "remote_addr_str", "remote_addr_ip_ver"}
    ensures name != "cookies" && name != "content"
  {
    NamesDiffer();
  }

  /** A field that every request has is the same in the table with the optional ones. */
  lemma CommonField(req: Request, now: int, headers: Value, cookies: Value, name: string)
    requires name in
      {"timestamp", "method", "proto", "host", "path", "headers", "remote_addr_str", "remote_addr_ip_ver"}
    requires name in RequestFields(req, now, headers)
    ensures
      var m := AllRequestFields(req, now, headers, cookies);
      name in m && m[name] == RequestFields(req, now, headers)[name]
  {
    OtherNames(name);
  }

  lemma CommonFieldsAre(req: Request, now: int, headers: Value)
    ensures
      var m := RequestFields(req, now, headers);
      && "timestamp" in m && m["timestamp"] == Number(now as real)
      && "method" in m && m["method"] == Str(CStr(req.httpMethod))
      && "proto" in m && m["proto"] == Str(CStr(req.proto))
      && "host" in m && m["host"] == Str(CStr(req.host))
      && "path" in m && m["path"] == Str(CStr(req.path))
      && "headers" in m && m["headers"] == headers
      && "remote_addr_str" in m && m["remote_addr_str"] == Str(CStr(req.address))
      && "remote_addr_ip_ver" in m && m["remote_addr_ip_ver"] == Number(if req.v4 then 4.0 else 6.0)
      && "cookies" !in m && "content" !in m
  {
    NamesDiffer();
  }

  /** The optional fields: cookies with a cookie header, content for a POST. */
  lemma OptionalFieldsAre(req: Request, now: int, headers: Value, cookies: Value)
    ensures
      var m := AllRequestFields(req, now, headers, cookies);
      && ("cookies" in m <==> FirstHeader(req.headers, "cookie").Some?) && ("cookies" in m ==> m["cookies"] == cookies)
      && ("content" in m <==> req.httpMethod == "POST") && ("content" in m ==> m["content"] == Str(req.content))
  {
    NamesDiffer();
    CommonFieldsAre(req, now, headers);
  }

  /** What the handler finds in the request table: the fields of every request. */
  lemma RequestTableIs(t: Value, req: Request, now: int)
    requires IsRequestTable(t, req, now)
    ensures Field(t, "timestamp") == Number(now as real)
    ensures Field(t, "method") == Str(CStr(req.httpMethod))
    ensures Field(t, "proto") == Str(CStr(req.proto))
    ensures Field(t, "host") == Str(CStr(req.host))
    ensures Field(t, "path") == Str(CStr(req.path))
    ensures Field(t, "remote_addr_str") == Str(CStr(req.address))
    ensures Field(t, "remote_addr_ip_ver") == Number(if req.v4 then 4.0 else 6.0)
    ensures IsHeaderTable(Field(t, "headers"), req.headers)
  {
    var headers, cookies :|
      && IsHeaderTable(headers, req.headers)
      && AreCookies(cookies, req)
      && HasFields(t, AllRequestFields(req, now, headers, cookies));
    FieldsRead(t, AllRequestFields(req, now, headers, cookies));
    CommonFieldsAre(req, now, headers);
    CommonField(req, now, headers, cookies, "timestamp");
    CommonField(req, now, headers, cookies, "method");
    CommonField(req, now, headers, cookies, "proto");
    CommonField(req, now, headers, cookies, "host");
    CommonField(req, now, headers, cookies, "path");
    CommonField(req, now, headers, cookies, "headers");
    CommonField(req, now, headers, cookies, "remote_addr_str");
    CommonField(req, now, headers, cookies, "remote_addr_ip_ver");
  }

  /** And the optional ones. */
  lemma OptionalFieldsRead(t: Value, req: Request, now: int)
    requires IsRequestTable(t, req, now)
    ensures Field(t, "content") == if req.httpMethod == "POST" then Str(req.content) else Nil
    ensures
      var cookie, c := FirstHeader(req.headers, "cookie"), Field(t, "cookies");
      if cookie.None? then c == Nil else IsCookieTable(c, CookieParts(cookie.value))
  {
    var headers, cookies :|
      && IsHeaderTable(headers, req.headers)
      && AreCookies(cookies, req)
      && HasFields(t, AllRequestFields(req, now, headers, cookies));
    FieldsRead(t, AllRequestFields(req, now, headers, cookies));
    OptionalFieldsAre(req, now, headers, cookies);
  }

  lemma CookieTableIs(t: Value, parts: seq<string>, name: string)
    requires IsCookieTable(t, parts)
    ensures t.Table? && (Get(t.entries, Str(name)).Str? <==>
      name != [] && exists i :: 0 <= i < |parts| && CookieName(parts[i]) == name)
  {
    assert HoldsCookie(t.entries, parts, name);
  }

  lemma HeaderTableIs(t: Value, headers: seq<(string, string)>, name: string)
    requires IsHeaderTable(t, headers)
    ensures t.Table? && Get(t.entries, Str(name)) == LastHeader(headers, name)
  {
  }

  lemma FieldsRead(t: Value, m: map<string, Value>)
    requires HasFields(t, m)
    ensures forall name: string :: Field(t, name) == if name in m then m[name] else Nil
  {
  }

  /** What the handler finds in the response it starts from. */
  lemma EmptyResponseIs(t: Value)
    requires IsEmptyResponse(t)
    ensures Field(t, "status") == Number(200.0) && Field(t, "content") == Str("") && Field(t, "headers") == Table([])
  {
    NamesDiffer();
    FieldsRead(t, map["status" := Number(200.0), "content" := Str(""), "headers" := Table([])]);
  }

  lemma HeaderSet(es: seq<Entry>, headers: seq<(string, string)>, h: (string, string))
    requires IsHeaderTable(Table(es), headers)
    ensures IsHeaderTable(Table(Set(es, Str(CStr(h.0)), Str(CStr(h.1)))), headers + [h])
  {
    var all := headers + [h];
    assert all[..|headers|] == headers;
    forall k: Value
      ensures Get(Set(es, Str(CStr(h.0)), Str(CStr(h.1))), k)
           == if k == Str(CStr(h.0)) then Str(CStr(h.1)) else Get(es, k)
    {
      GetSet(es, Str(CStr(h.0)), Str(CStr(h.1)), k);
    }
  }

  lemma NamesSnoc(parts: seq<string>, part: string, n: string)
    ensures NamesCookie(parts + [part], n) <==> NamesCookie(parts, n) || (n != [] && n == CookieName(part))
  {
    var all := parts + [part];
    assert all[|parts|] == part;
    assert forall i :: 0 <= i < |parts| ==> all[i] == parts[i];
  }

  lemma CookieSet(es: seq<Entry>, parts: seq<string>, part: string, value: string)
    requires IsCookieTable(Table(es), parts)
    ensures
      var name := CookieName(part);
      IsCookieTable(Table(if name == [] then es else Set(es, Str(name), Str(value))), parts + [part])
  {
    var name := CookieName(part);
    var r := if name == [] then es else Set(es, Str(name), Str(value));
    forall k: Value | !k.Str?
      ensures Get(r, k) == Nil
    {
      GetSet(es, Str(name), Str(value), k);
    }
    forall n: string
      ensures HoldsCookie(r, parts + [part], n)
    {
      assert HoldsCookie(es, parts, n);
      NamesSnoc(parts, part, n);
      GetSet(es, Str(name), Str(value), Str(n));
    }
  }

  // ----- responses

  datatype Response = Response(status: int, headers: seq<(string, string)>, content: string)

  predicate HasHeader(headers: seq<(string, string)>, name: string) {
    exists i :: 0 <= i < |headers| && headers[i].0 == name
  }

  function Decimal(n: nat): string {
    (if n < 10 then [] else Decimal(n / 10)) + ["0123456789"[n % 10]]
  }

  /** The headers that go out. */
  function Completed(headers: seq<(string, string)>, content: string, http2: bool): seq<(string, string)> {
    var all := if HasHeader(headers, "server") then headers else headers + [("server", "petrel")];
    if http2 then all + [("content-length", Decimal(|content|))] else all
  }

  /** The headers as they stand, a server header exactly if there is none, and in HTTP/2
      the length of the content. */
  lemma CompletedIs(headers: seq<(string, string)>, content: string, http2: bool)
    ensures
      var c, n := Completed(headers, content, http2), |headers|;
      var server := exists i :: 0 <= i < n && headers[i].0 == "server";
      && headers <= c && |c| == n + (if server then 0 else 1) + (if http2 then 1 else 0)
      && (!server ==> c[n] == ("server", "petrel"))
      && (http2 ==> c[|c| - 1] == ("content-length", Decimal(|content|)))
  {
    assert HasHeader(headers, "server") <==> exists i :: 0 <= i < |headers| && headers[i].0 == "server";
  }

  function DigitsValue(s: string): int {
    if s == [] then 0 else DigitsValue(s[..|s| - 1]) * 10 + (s[|s| - 1] as int - '0' as int)
  }

  lemma DigitIs(d: nat)
    requires d < 10
    ensures "0123456789"[d] as int == '0' as int + d
  {
  }

  lemma DigitsSnoc(s: string, c: char)
    ensures DigitsValue(s + [c]) == DigitsValue(s) * 10 + (c as int - '0' as int)
  {
    assert (s + [c])[..|s|] == s;
  }

  /** Decimal digits that stand for the number. */
  lemma {:induction false} DecimalIs(n: nat)
    ensures Decimal(n) != [] && (forall c :: c in Decimal(n) ==> '0' <= c <= '9')
    ensures DigitsValue(Decimal(n)) == n
  {
    var init, c := if n < 10 then [] else Decimal(n / 10), "0123456789"[n % 10];
    DigitIs(n % 10);
    if n >= 10 { DecimalIs(n / 10); }
    assert Decimal(n) == init + [c];
    DigitsSnoc(init, c);
  }

  /** A request object with its response side (src/core/request.h). `sent` records
      what went out. */
  class Exchange {
    const request: Request
    const http2: bool
    var headers: seq<(string, string)>
    var body: string
    var sent: seq<Response>

    constructor (request: Request, http2: bool)
      ensures this.request == request && this.http2 == http2 && Fresh() && headers == []
    {
      this.request, this.http2, headers, body, sent := request, http2, [], [], [];
    }

    /** Nothing has been sent. */
    ghost predicate Fresh()
      reads this
    {
      sent == [] && body == []
    }

    /** `send_response`, which must not be called twice: the promise behind it takes
        one value. */
    method SendResponse(status: int, content: string)
      requires Fresh()
      modifies this
      ensures sent == [Response(status, Completed(old(headers), content, http2), content)]
    {
      if !HasHeader(headers, "server") {
        headers := headers + [("server", "petrel")];
      }
      if http2 {
        headers := headers + [("content-length", Decimal(|content|))];
        sent := sent + [Response(status, headers, content)];
      } else {
        body := body + content;
        assert body == content;
        sent := sent + [Response(status, headers, body)];
      }
    }
  }

  // ----- reading a header table

  /** What Lua guarantees of a table. */
  ghost predicate IsLuaTable(es: seq<Entry>) {
    && (forall i :: 0 <= i < |es| ==> es[i].key != Nil)
    && (forall i, j :: 0 <= i < j < |es| ==> es[i].key != es[j].key)
  }

  /** An entry whose key the loop turns from a number into a string. */
  predicate Converts(e: Entry) {
    e.key.Number? && IsString(e.value)
  }

  predicate Confusing(es: seq<Entry>) {
    exists i :: 0 <= i < |es| && Converts(es[i])
  }

  /** Where a traversal stands: at an entry, past the last one, or refused by `lua_next`
      because the key it was given is not in the table. */
  datatype Walk = AtEntry(i: nat) | Ended | Lost

  function Arrive(es: seq<Entry>, p: nat): Walk {
    if p < |es| then AtEntry(p) else Ended
  }

  // ----- reading a result

  /** How Lua turns numbers into text and back, left open here, and with it what a
      handler's result means. */
  datatype Conversions = Conversions(text: real -> string, number: string -> Option<real>) {
    /** `lua_isnumber`, with the number. */
    function ToNumber(v: Value): Option<real> {
      if v.Number? then Some(v.r) else if v.Str? then number(v.s) else None
    }

    /** `lua_tolstring` of a value that `lua_isstring` accepts. */
    function ToText(v: Value): string
      requires IsString(v)
    {
      if v.Str? then v.s else text(v.r)
    }

    /** The header that an entry of the response's header table gives. */
    function HeaderOf(e: Entry): seq<(string, string)> {
      if IsString(e.key) && IsString(e.value) then [(CStr(ToText(e.key)), CStr(ToText(e.value)))] else []
    }

    /** The key slot after the loop body: `lua_tostring` converts a number in place. */
    function KeyAfter(e: Entry): Value {
      if Converts(e) then Str(text(e.key.r)) else e.key
    }

    /** One turn: `lua_next` goes to the entry after the key it finds in the slot. */
    function Follow(es: seq<Entry>, i: nat): Walk
      requires i < |es|
    {
      var j := IndexOf(es, KeyAfter(es[i]));
      if j < |es| then Arrive(es, j + 1) else Lost
    }

    function Onward(es: seq<Entry>, w: Walk): Walk {
      if w.AtEntry? && w.i < |es| then Follow(es, w.i) else w
    }

    function WalkAfter(es: seq<Entry>, turns: nat): (w: Walk)
      ensures w.AtEntry? ==> w.i < |es|
    {
      if turns == 0 then Arrive(es, 0) else Onward(es, WalkAfter(es, turns - 1))
    }

    /** The headers that the first turns add. */
    function HeadersAfter(es: seq<Entry>, turns: nat): seq<(string, string)> {
      if turns == 0 then []
      else
        var w := WalkAfter(es, turns - 1);
        HeadersAfter(es, turns - 1) + if w.AtEntry? then HeaderOf(es[w.i]) else []
    }

    /** How the traversal of a table comes out: see `FateIsFinal`. */
    function Fate(es: seq<Entry>): Walk {
      WalkAfter(es, |es|)
    }

    function HeadersOf(es: seq<Entry>): seq<(string, string)> {
      HeadersAfter(es, |es|)
    }

    /** What counts as a number, and its value. */
    lemma ToNumberIs(v: Value)
      ensures v.Number? ==> ToNumber(v) == Some(v.r)
      ensures v.Str? ==> ToNumber(v) == number(v.s)
      ensures !v.Number? && !v.Str? ==> ToNumber(v) == None
    {
    }

    /** A string or number key with such a value gives one header. */
    lemma HeaderOfIs(e: Entry)
      ensures HeaderOf(e) ==
        if (e.key.Str? || e.key.Number?) && (e.value.Str? || e.value.Number?)
        then [(CStr(if e.key.Str? then e.key.s else text(e.key.r)),
               CStr(if e.value.Str? then e.value.s else text(e.value.r)))]
        else []
    {
    }

    /** Where one turn leads: to the next entry, unless the key was a number with a
        string-like value; then to the entry after the one whose key is its text. */
    lemma FollowIs(es: seq<Entry>, i: nat)
      requires IsLuaTable(es) && i < |es|
      ensures
        var converts := es[i].key.Number? && (es[i].value.Str? || es[i].value.Number?);
        && (!converts ==> Follow(es, i) == if i + 1 < |es| then AtEntry(i + 1) else Ended)
        && (converts ==>
              && (forall j :: 0 <= j < |es| && es[j].key == Str(text(es[i].key.r)) ==>
                    Follow(es, i) == if j + 1 < |es| then AtEntry(j + 1) else Ended)
              && ((forall j :: 0 <= j < |es| ==> es[j].key != Str(text(es[i].key.r))) ==> Follow(es, i) == Lost))
    {
      if !Converts(es[i]) {
        IndexIs(es, es[i].key, i);
      }
    }

    /** The traversal begins at the first entry and goes on as `Follow` says; each entry it
        visits adds its header. */
    lemma WalkIs(es: seq<Entry>, n: nat)
      ensures WalkAfter(es, 0) == (if es == [] then Ended else AtEntry(0)) && HeadersAfter(es, 0) == []
      ensures
        var w := WalkAfter(es, n);
        && WalkAfter(es, n + 1) == (if w.AtEntry? then Follow(es, w.i) else w)
        && HeadersAfter(es, n + 1) == HeadersAfter(es, n) + (if w.AtEntry? then HeaderOf(es[w.i]) else [])
    {
    }

    lemma {:induction false} StaysOut(es: seq<Entry>, m: nat, n: nat)
      requires m <= n && !WalkAfter(es, m).AtEntry?
      ensures WalkAfter(es, n) == WalkAfter(es, m) && HeadersAfter(es, n) == HeadersAfter(es, m)
    {
      if m < n { StaysOut(es, m, n - 1); }
    }

    lemma OneTurn(es: seq<Entry>, n: nat)
      ensures WalkAfter(es, n + 1) == Onward(es, WalkAfter(es, n))
    {
    }

    /** A traversal that comes to an entry twice never ends. */
    lemma TwiceIsForever(es: seq<Entry>, a: nat, b: nat, n: nat)
      requires a < b && WalkAfter(es, a) == WalkAfter(es, b) && WalkAfter(es, b).AtEntry?
      ensures WalkAfter(es, n).AtEntry?
    {
      var k := n;
      if n >= b {
        forall m: nat
          ensures WalkAfter(es, m + 1) == Onward(es, WalkAfter(es, m))
        {
          OneTurn(es, m);
        }
        k := Cycle((m: nat) => WalkAfter(es, m), w => Onward(es, w), a, b, n);
      }
      if !WalkAfter(es, k).AtEntry? { StaysOut(es, k, b); }
    }

    /** The entries visited in the first `n` turns. */
    ghost function Visited(es: seq<Entry>, n: nat): (c: seq<nat>)
      requires forall k: nat :: k < n ==> WalkAfter(es, k).AtEntry?
      ensures |c| == n && forall k :: 0 <= k < n ==> WalkAfter(es, k) == AtEntry(c[k])
    {
      if n == 0 then [] else Visited(es, n - 1) + [WalkAfter(es, n - 1).i]
    }

    /** After as many turns as there are entries everything is decided: the traversal
        has ended or been refused, or it goes on for ever. */
    lemma FateIsFinal(es: seq<Entry>, n: nat)
      ensures Fate(es).AtEntry? ==> WalkAfter(es, n).AtEntry?
      ensures !Fate(es).AtEntry? && n >= |es| ==> WalkAfter(es, n) == Fate(es) && HeadersAfter(es, n) == HeadersOf(es)
    {
      var m := |es|;
      if Fate(es).AtEntry? {
        forall k: nat | k < m + 1
          ensures WalkAfter(es, k).AtEntry?
        {
          if !WalkAfter(es, k).AtEntry? { StaysOut(es, k, m); }
        }
        var c := Visited(es, m + 1);
        assert forall k: nat :: k < m + 1 ==> WalkAfter(es, k).i < m;
        if NoDup(c) {
          Pigeonhole(c, m);
        }
        var a: nat, b: nat :| a < b < m + 1 && c[a] == c[b];
        TwiceIsForever(es, a, b, n);
      } else if n >= m {
        StaysOut(es, m, n);
      }
    }

    /** How the first turns have come out. */
    predicate TurnsCome(es: seq<Entry>, turns: nat, more: bool, lost: bool) {
      var w := WalkAfter(es, turns);
      more == w.AtEntry? && lost == w.Lost?
    }

    lemma CameOut(es: seq<Entry>, turns: nat, more: bool, lost: bool)
      requires turns <= |es| && TurnsCome(es, turns, more, lost) && (more ==> turns == |es|)
      ensures lost == Fate(es).Lost? && more == Fate(es).AtEntry?
      ensures WalkAfter(es, turns) == Fate(es) && HeadersAfter(es, turns) == HeadersOf(es)
    {
      if !more { StaysOut(es, turns, |es|); }
    }

    /** A traversal ends, or is refused, exactly when it has done so after as many turns
        as there are entries. */
    lemma EndsIff(es: seq<Entry>)
      ensures (exists n: nat :: WalkAfter(es, n).Ended?) <==> Fate(es).Ended?
      ensures (exists n: nat :: WalkAfter(es, n).Lost?) <==> Fate(es).Lost?
    {
      forall n: nat | !WalkAfter(es, n).AtEntry?
        ensures WalkAfter(es, n) == Fate(es)
      {
        FateIsFinal(es, n);
        if n < |es| { StaysOut(es, n, |es|); }
      }
      assert WalkAfter(es, |es|) == Fate(es);
    }

    /** A traversal that ends visits no entry twice, so each header is added once. */
    lemma VisitsOnce(es: seq<Entry>, a: nat, b: nat)
      requires Fate(es).Ended? && a < b && WalkAfter(es, a).AtEntry?
      ensures WalkAfter(es, a) != WalkAfter(es, b)
    {
      if WalkAfter(es, a) == WalkAfter(es, b) {
        TwiceIsForever(es, a, b, |es|);
      }
    }

    lemma {:induction false} StraightUpTo(es: seq<Entry>, n: nat)
      requires IsLuaTable(es) && n <= |es| && forall i :: 0 <= i < n ==> !Converts(es[i])
      ensures WalkAfter(es, n) == Arrive(es, n)
    {
      if n > 0 {
        StraightUpTo(es, n - 1);
        IndexIs(es, es[n - 1].key, n - 1);
      }
    }

    /** The entries are visited one after the other exactly when no key is converted. */
    lemma StraightIff(es: seq<Entry>)
      requires IsLuaTable(es)
      ensures (forall n: nat :: n <= |es| ==> WalkAfter(es, n) == Arrive(es, n)) <==> !Confusing(es)
    {
      if Confusing(es) {
        var i := FirstConverted(es, |es|);
        StraightUpTo(es, i);
        assert IndexOf(es, KeyAfter(es[i])) != i;
        assert WalkAfter(es, i + 1) != Arrive(es, i + 1);
      } else {
        forall n: nat | n <= |es|
          ensures WalkAfter(es, n) == Arrive(es, n)
        {
          StraightUpTo(es, n);
        }
      }
    }

    lemma {:induction false} FirstConverted(es: seq<Entry>, n: nat) returns (i: nat)
      requires n <= |es| && exists k :: 0 <= k < n && Converts(es[k])
      ensures i < n && Converts(es[i]) && forall k :: 0 <= k < i ==> !Converts(es[k])
    {
      if k :| 0 <= k < n - 1 && Converts(es[k]) {
        i := FirstConverted(es, n - 1);
      } else {
        i := n - 1;
      }
    }

    // ----- the verdict on a call

    /** What the traceback function leaves on the stack in place of an error. */
    function Traceback(error: Value, tostring: Option<Value>, trace: string): Value {
      if IsString(error) then Str(CStr(ToText(error)) + trace)
      else if error == Nil then Nil
      else if tostring.Some? then tostring.value
      else Str("(no error message)")
    }

    /** The one value that a call leaves on the stack. */
    function Left(does: Behaviour): Value {
      match does
      case Returns(value, _) => value
      case Raises(error, tostring, trace, _) => Traceback(error, tostring, trace)
    }

    /** A result whose headers are looked at. */
    predicate ReachesHeaders(v: Value) {
      v.Table? && ToNumber(Field(v, "status")).Some? && Field(v, "headers").Table?
    }

    /** What a handler must return to be answered. */
    predicate IsResponse(v: Value) {
      && ReachesHeaders(v)
      && Fate(Field(v, "headers").entries).Ended?
      && IsString(Field(v, "content"))
    }

    /** The response that such a value stands for. */
    function ResponseOf(v: Value, headers: seq<(string, string)>, http2: bool): Response
      requires IsResponse(v)
    {
      var content := ToText(Field(v, "content"));
      var all := headers + HeadersOf(Field(v, "headers").entries);
      Response(Truncated(ToNumber(Field(v, "status")).value), Completed(all, content, http2), content)
    }

    /** How a request comes out whose handler was called. */
    function Verdict(does: Behaviour): Outcome {
      var v := Left(does);
      if does.Raises? then if IsString(v) then Threw else Crashed
      else if !ReachesHeaders(v) then Threw
      else
        match Fate(Field(v, "headers").entries)
        case AtEntry(_) => Diverged
        case Lost => Aborted
        case Ended => if IsString(Field(v, "content")) then Responded else Threw
    }

    /** The outcomes of a call that returns a value: an exception exactly when the value is
        no table, its status no number, its headers no table, or, these being read to the
        end, its content no string or number; an answer exactly when none of this is so;
        an abort or divergence exactly when the headers are not read to the end. */
    lemma ReturnedIs(v: Value, globals: map<string, Value>)
      ensures
        var outcome := Verdict(Returns(v, globals));
        var status, h, c := Field(v, "status"), Field(v, "headers"), Field(v, "content");
        && (outcome == Threw <==>
              || !v.Table? || ToNumber(status).None? || !h.Table?
              || (Fate(h.entries) == Ended && !c.Str? && !c.Number?))
        && (outcome == Responded <==>
              v.Table? && ToNumber(status).Some? && h.Table? && Fate(h.entries) == Ended && (c.Str? || c.Number?))
        && (outcome == Aborted <==> v.Table? && ToNumber(status).Some? && h.Table? && Fate(h.entries) == Lost)
        && (outcome == Diverged <==> v.Table? && ToNumber(status).Some? && h.Table? && Fate(h.entries).AtEntry?)
        && outcome != Crashed
    {
    }

    /** What is sent for such a value. */
    lemma ResponseIs(v: Value, headers: seq<(string, string)>, http2: bool)
      requires IsResponse(v)
      ensures
        var r, c := ResponseOf(v, headers, http2), Field(v, "content");
        && v.Table? && Field(v, "headers").Table? && ToNumber(Field(v, "status")).Some?
        && r.status == Truncated(ToNumber(Field(v, "status")).value)
        && r.content == (if c.Str? then c.s else if c.Number? then text(c.r) else "")
        && r.headers == Completed(headers + HeadersOf(Field(v, "headers").entries), r.content, http2)
    {
    }

    /** A failed call throws if and only if the error is a string or number, or another
        value but nil that has no `__tostring` or one that gives a string or number. */
    lemma FailureThrowsIff(error: Value, tostring: Option<Value>, trace: string, globals: map<string, Value>)
      ensures
        var outcome := Verdict(Raises(error, tostring, trace, globals));
        && (outcome == Threw || outcome == Crashed)
        && (outcome == Threw <==>
              IsString(error) || (error != Nil && (tostring.Some? ==> IsString(tostring.value))))
    {
    }

    /** `error(nil)`, or `error()`: there is no message to make an exception of. */
    lemma NilErrorCrashes(trace: string, globals: map<string, Value>)
      ensures Verdict(Raises(Nil, None, trace, globals)) == Crashed
    {
    }

    // ----- one header table for each outcome

    /** Key 1 before key "1": the traversal jumps past the second entry and ends. */
    lemma SkipsAnEntry()
      requires text(1.0) == "1"
      ensures
        var es := [Entry(Number(1.0), Str("a")), Entry(Str("1"), Str("b"))];
        Fate(es) == Ended && HeadersOf(es) == [("1", "a")]
    {
      var es := [Entry(Number(1.0), Str("a")), Entry(Str("1"), Str("b"))];
      IndexIs(es, Str("1"), 1);
      assert WalkAfter(es, 0) == AtEntry(0) && WalkAfter(es, 1) == Ended;
      assert WalkAfter(es, 2) == Ended;
      CleanText("1");
      CleanText("a");
      assert HeadersAfter(es, 0) == [] && HeadersAfter(es, 1) == [("1", "a")];
    }

    /** Key 1 alone: `lua_next` is given a key that is not in the table. */
    lemma LosesItsKey()
      requires text(1.0) == "1"
      ensures Fate([Entry(Number(1.0), Str("a"))]) == Lost
    {
      var es := [Entry(Number(1.0), Str("a"))];
      IndexIs(es, Str("1"), 1);
      assert WalkAfter(es, 0) == AtEntry(0) && WalkAfter(es, 1) == Lost;
    }

    /** Key "1" before key 1: the traversal comes back to the second entry for ever. */
    lemma NeverEnds(n: nat)
      requires text(1.0) == "1"
      ensures WalkAfter([Entry(Str("1"), Str("b")), Entry(Number(1.0), Str("a"))], n).AtEntry?
    {
      var es := [Entry(Str("1"), Str("b")), Entry(Number(1.0), Str("a"))];
      IndexIs(es, Str("1"), 0);
      assert WalkAfter(es, 0) == AtEntry(0) && WalkAfter(es, 1) == AtEntry(1);
      assert WalkAfter(es, 2) == AtEntry(1);
      TwiceIsForever(es, 1, 2, n);
    }
  }

  lemma CleanText(s: string)
    requires '\0' !in s
    ensures CStr(s) == s
  {
  }

  // ----- a Lua state

  /** What the handler does, from the outside: it returns a value, or raises an error,
      whose `__tostring` metamethod, if it has one, gives the value `tostring`. The
      traceback function appends `trace` to a message. */
  datatype Behaviour =
    | Returns(value: Value, globals: map<string, Value>)
    | Raises(error: Value, tostring: Option<Value>, trace: string, globals: map<string, Value>)

  /** A protected call of `f` with two arguments. */
  datatype Call = Call(f: Value, arg1: Value, arg2: Value)

  /** Answered; ended by an exception; ended by a null pointer taken for an error
      message; by a Lua error outside any protected call; or not at all. */
  datatype Outcome = Responded | Threw | Crashed | Aborted | Diverged

  /** Whether `lua_getglobal` finds the handler function. */
  predicate Defined(globals: map<string, Value>, func: string) {
    CStr(func) in globals && globals[CStr(func)].Function?
  }

  /** The handler was called once, with the tables of this request, if it is defined,
      and nothing was called otherwise. */
  ghost predicate Calls(globals: map<string, Value>, before: seq<Call>, after: seq<Call>,
                        func: string, req: Request, now: int)
  {
    if Defined(globals, func) then
      && |after| == |before| + 1 && after[..|before|] == before
      && after[|before|].f == globals[CStr(func)]
      && IsRequestTable(after[|before|].arg1, req, now)
      && IsEmptyResponse(after[|before|].arg2)
    else after == before
  }

  /** The latest call was made with the tables of this request. */
  ghost predicate CalledWith(calls: seq<Call>, req: Request, now: int) {
    && calls != []
    && IsRequestTable(calls[|calls| - 1].arg1, req, now)
    && IsEmptyResponse(calls[|calls| - 1].arg2)
  }

  ghost predicate IsLuaResult(does: Behaviour) {
    does.Returns? && Field(does.value, "headers").Table? ==> IsLuaTable(Field(does.value, "headers").entries)
  }

  /** What `lua_next` reports; the last is a Lua error. */
  datatype NextResult = More | NoMore | InvalidKey

  /** Three values on top do not move what is below them. */
  lemma AtBelow(s: Stack, i: nat)
    requires s.Push? && s.below.Push? && s.below.below.Push? && At(s.below.below.below, i) != Nil
    ensures At(s, i) == At(s.below.below.below, i)
  {
    AtIsInside(s.below.below.below, i);
    assert At(s.below.below, i) == At(s.below.below.below, i);
    assert At(s.below, i) == At(s.below.below, i);
  }

  class LuaState {
    const conv: Conversions
    const tracebackIdx: nat
    const entry: Stack
    var stack: Stack
    var globals: map<string, Value>
    var calls: seq<Call>

    /** The stack as `create_state` left it, with the traceback function in place. */
    ghost predicate Ready()
      reads this
    {
      stack == entry && At(entry, tracebackIdx) == TRACEBACK
    }

    /** The end of `create_state`: whatever loading left on the stack, then the
        traceback function. */
    constructor (below: Stack, globals: map<string, Value>, conv: Conversions)
      ensures Ready() && calls == [] && this.globals == globals && this.conv == conv
      ensures stack == entry == Push(TRACEBACK, below) && tracebackIdx == Depth(below) + 1
    {
      this.conv, this.globals, calls := conv, globals, [];
      stack, entry := Push(TRACEBACK, below), Push(TRACEBACK, below);
      tracebackIdx := Depth(Push(TRACEBACK, below));
    }

    method PushValue(v: Value)
      modifies this`stack
      ensures stack == Push(v, old(stack))
    {
      stack := Push(v, stack);
    }

    method Pop()
      requires stack.Push?
      modifies this`stack
      ensures stack == old(stack).below
    {
      stack := stack.below;
    }

    /** `lua_getglobal` */
    method GetGlobal(name: string)
      modifies this`stack
      ensures stack == Push(if name in globals then globals[name] else Nil, old(stack))
    {
      stack := Push(if name in globals then globals[name] else Nil, stack);
    }

    /** `lua_setfield(L, -2, name)` */
    method SetField(name: string)
      requires stack.Push? && stack.below.Push? && stack.below.top.Table?
      modifies this`stack
      ensures stack == Push(Table(Set(old(stack).below.top.entries, Str(name), old(stack).top)), old(stack).below.below)
    {
      stack := Push(Table(Set(stack.below.top.entries, Str(name), stack.top)), stack.below.below);
    }

    /** `lua_rawset(L, -3)` */
    method RawSet()
      requires stack.Push? && stack.below.Push? && stack.below.below.Push? && stack.below.below.top.Table?
      modifies this`stack
      ensures
        var below := old(stack).below;
        stack == Push(Table(Set(below.below.top.entries, below.top, old(stack).top)), below.below.below)
    {
      var t := stack.below.below;
      stack := Push(Table(Set(t.top.entries, stack.below.top, stack.top)), t.below);
    }

    /** `lua_getfield(L, -1, name)` */
    method GetField(name: string)
      requires stack.Push? && stack.top.Table?
      modifies this`stack
      ensures stack == Push(Field(old(stack).top, name), old(stack))
    {
      stack := Push(Field(stack.top, name), stack);
    }

    /** `lua_next`: replaces the key on top by the next key and its value, or removes
        it. A key that is neither nil nor in the table is an error. */
    method Next(index: nat) returns (result: NextResult)
      requires stack.Push? && At(stack, index).Table?
      modifies this`stack
      ensures
        var es := At(old(stack), index).entries;
        var i := if old(stack).top == Nil then 0 else IndexOf(es, old(stack).top) + 1;
        && result == (if i < |es| then More else if i == |es| then NoMore else InvalidKey)
        && (result.More? ==> stack == Push(es[i].value, Push(es[i].key, old(stack).below)))
        && (result.NoMore? ==> stack == old(stack).below)
    {
      var es := At(stack, index).entries;
      var i := if stack.top == Nil then 0 else IndexOf(es, stack.top) + 1;
      if i < |es| {
        stack := Push(es[i].value, Push(es[i].key, stack.below));
        result := More;
      } else if i == |es| {
        stack := stack.below;
        result := NoMore;
      } else {
        result := InvalidKey;
      }
    }

    /** A function and two arguments are on top of the entry stack. */
    ghost predicate Calling()
      reads this
    {
      && stack.Push? && stack.below.Push? && stack.below.below.Push?
      && stack.below.below.below == entry && At(entry, tracebackIdx) == TRACEBACK
    }

    /** The beginning of `lua_pcall(L, 2, 1, handler)`, which must find its message
        handler. */
    method StartCall(handler: nat)
      requires stack.Push? && stack.below.Push? && stack.below.below.Push? && At(stack, handler) == TRACEBACK
      modifies this`calls
      ensures calls == old(calls) + [Call(stack.below.below.top, stack.below.top, stack.top)]
    {
      calls := calls + [Call(stack.below.below.top, stack.below.top, stack.top)];
    }

    /** Its end: function and arguments make room for one value. */
    method EndCall(does: Behaviour) returns (failed: bool)
      requires Calling()
      modifies this`stack, this`globals
      ensures failed == does.Raises? && globals == does.globals
      ensures stack == Push(conv.Left(does), entry)
    {
      stack := Push(conv.Left(does), stack.below.below.below);
      globals := does.globals;
      failed := does.Raises?;
    }

    // ----- what is pushed

    /** One header, stored in the table on top. */
    method PushHeader(h: (string, string), ghost before: seq<(string, string)>)
      requires stack.Push? && IsHeaderTable(stack.top, before)
      modifies this`stack
      ensures stack.Push? && stack.below == old(stack).below && IsHeaderTable(stack.top, before + [h])
    {
      HeaderSet(stack.top.entries, before, h);
      PushValue(Str(CStr(h.1)));
      SetField(CStr(h.0));
    }

    /** The header loop of `push_request`. */
    method PushHeaders(headers: seq<(string, string)>)
      modifies this`stack
      ensures stack.Push? && stack.below == old(stack) && IsHeaderTable(stack.top, headers)
      ensures stack.top.Table? && forall name: string :: Get(stack.top.entries, Str(name)) == LastHeader(headers, name)
    {
      PushValue(Table([]));
      for i := 0 to |headers|
        invariant stack.Push? && stack.below == old(stack) && IsHeaderTable(stack.top, headers[..i])
      {
        PushHeader(headers[i], headers[..i]);
        assert headers[..i] + [headers[i]] == headers[..i + 1];
      }
      assert headers[..|headers|] == headers;
    }

    /** Where the name starts, after leading spaces. */
    method SkipSpaces(part: string, eq: nat) returns (start: nat)
      requires eq <= |part|
      ensures start <= eq && part[start..eq] == WithoutSpaces(part[..eq])
    {
      start := 0;
      assert part[0..eq] == part[..eq];
      while start < eq && part[start] == ' '
        invariant start <= eq && WithoutSpaces(part[start..eq]) == WithoutSpaces(part[..eq])
      {
        assert part[start..eq][1..] == part[start + 1..eq];
        start := start + 1;
      }
    }

    /** One part of the cookie string. What lies behind a cookie's value is left open
        here. */
    method PushCookie(part: string, ghost before: seq<string>)
      requires stack.Push? && IsCookieTable(stack.top, before)
      modifies this`stack
      ensures stack.Push? && stack.below == old(stack).below && IsCookieTable(stack.top, before + [part])
    {
      var value: string := *;
      CookieSet(stack.top.entries, before, part, value);
      var eq := StringSplit.Find(part, "=");
      if eq.Some? && eq.value != 0 {
        var start := SkipSpaces(part, eq.value);
        if eq.value - start > 0 {
          PushValue(Str(part[start..eq.value]));
          PushValue(Str(value));
          RawSet();
        }
      }
    }

    /** `push_cookies` */
    method PushCookies(cookies: string)
      modifies this`stack
      ensures stack.Push? && stack.below == old(stack) && IsCookieTable(stack.top, CookieParts(cookies))
    {
      PushValue(Table([]));
      var parts := CookieParts(cookies);
      for i := 0 to |parts|
        invariant stack.Push? && stack.below == old(stack) && IsCookieTable(stack.top, parts[..i])
      {
        PushCookie(parts[i], parts[..i]);
        assert parts[..i] + [parts[i]] == parts[..i + 1];
      }
      assert parts[..|parts|] == parts;
    }

    /** One field of the table on top: the value is pushed and stored. */
    method Store(name: string, v: Value, ghost m: map<string, Value>)
      requires stack.Push? && HasFields(stack.top, m)
      modifies this`stack
      ensures stack.Push? && stack.below == old(stack).below && HasFields(stack.top, m[name := v])
    {
      SetFields(stack.top, m, name, v);
      PushValue(v);
      SetField(name);
    }

    /** The fields of `push_request` that every request has. */
    method PushCommon(req: Request, now: int) returns (ghost headers: Value)
      modifies this`stack
      ensures stack.Push? && stack.below == old(stack) && IsHeaderTable(headers, req.headers)
      ensures HasFields(stack.top, RequestFields(req, now, headers))
    {
      PushValue(Table([]));
      ghost var m := map[];
      Store("timestamp", Number(now as real), m);
      m := m["timestamp" := Number(now as real)];
      Store("method", Str(CStr(req.httpMethod)), m);
      m := m["method" := Str(CStr(req.httpMethod))];
      Store("proto", Str(CStr(req.proto)), m);
      m := m["proto" := Str(CStr(req.proto))];
      Store("host", Str(CStr(req.host)), m);
      m := m["host" := Str(CStr(req.host))];
      Store("path", Str(CStr(req.path)), m);
      m := m["path" := Str(CStr(req.path))];
      PushHeaders(req.headers);
      headers := stack.top;
      SetFields(stack.below.top, m, "headers", headers);
      SetField("headers");
      m := m["headers" := headers];
      Store("remote_addr_str", Str(CStr(req.address)), m);
      m := m["remote_addr_str" := Str(CStr(req.address))];
      Store("remote_addr_ip_ver", Number(if req.v4 then 4.0 else 6.0), m);
    }

    /** The cookie field of `push_request`. */
    method PushCookieField(req: Request, ghost m: map<string, Value>) returns (ghost cookies: Value)
      requires stack.Push? && HasFields(stack.top, m)
      modifies this`stack
      ensures stack.Push? && stack.below == old(stack).below && AreCookies(cookies, req)
      ensures HasFields(stack.top, if FirstHeader(req.headers, "cookie").Some? then m["cookies" := cookies] else m)
    {
      cookies := Nil;
      var cookie := FirstHeader(req.headers, "cookie");
      if cookie.Some? {
        PushCookies(cookie.value);
        cookies := stack.top;
        SetFields(stack.below.top, m, "cookies", cookies);
        SetField("cookies");
      }
    }

    /** `push_request` */
    method PushRequest(req: Request, now: int)
      modifies this`stack
      ensures stack.Push? && stack.below == old(stack) && IsRequestTable(stack.top, req, now)
    {
      ghost var headers := PushCommon(req, now);
      ghost var m := RequestFields(req, now, headers);
      ghost var cookies := PushCookieField(req, m);
      if req.httpMethod == "POST" {
        m := if FirstHeader(req.headers, "cookie").Some? then m["cookies" := cookies] else m;
        Store("content", Str(req.content), m);
      }
      assert HasFields(stack.top, AllRequestFields(req, now, headers, cookies));
    }

    /** `push_response` */
    method PushResponse()
      modifies this`stack
      ensures stack.Push? && stack.below == old(stack) && IsEmptyResponse(stack.top)
    {
      PushValue(Table([]));
      Store("status", Number(200.0), map[]);
      ghost var m := map["status" := Number(200.0)];
      Store("content", Str(""), m);
      m := m["content" := Str("")];
      PushValue(Table([]));
      SetFields(stack.below.top, m, "headers", Table([]));
      SetField("headers");
    }

    // ----- the call and what is read back

    /** The traversal's stack: at an entry its key and value are on top of the table. */
    ghost function Visiting(s: Stack, w: Walk): Stack
      requires s.Push? && s.top.Table?
    {
      var es := s.top.entries;
      if w.AtEntry? && w.i < |es| then Push(es[w.i].value, Push(es[w.i].key, s)) else s
    }

    /** The body of the header loop without its last statement, at entry `i`: the header
        is added, and `lua_tostring` converts numbers where they are on the stack. */
    method ReadHeader(x: Exchange, ghost s: Stack, ghost i: nat)
      requires s.Push? && s.top.Table? && i < |s.top.entries| && stack == Visiting(s, AtEntry(i))
      modifies this`stack, x`headers
      ensures stack.Push? && stack.below == Push(conv.KeyAfter(s.top.entries[i]), s)
      ensures x.headers == old(x.headers) + conv.HeaderOf(s.top.entries[i])
    {
      if IsString(stack.top) && IsString(stack.below.top) {
        var name, val := conv.ToText(stack.below.top), conv.ToText(stack.top);
        stack := Push(Str(val), Push(Str(name), stack.below.below));
        x.headers := x.headers + [(CStr(name), CStr(val))];
      }
    }

    /** `lua_pushnil` and `lua_next`: the first entry of the table on top. */
    method Start(table: nat) returns (more: bool)
      requires stack.Push? && stack.top.Table? && table == Depth(stack)
      modifies this`stack
      ensures
        var w := Arrive(old(stack).top.entries, 0);
        stack == Visiting(old(stack), w) && more == w.AtEntry?
    {
      PushValue(Nil);
      assert At(stack, table) == old(stack).top;
      var result := Next(table);
      more := result.More?;
    }

    /** `lua_pop(L, 1)` and `lua_next`: on to where the key leads. */
    method Advance(table: nat, ghost s: Stack, ghost i: nat) returns (result: NextResult)
      requires s.Push? && s.top.Table? && IsLuaTable(s.top.entries) && i < |s.top.entries| && table == Depth(s)
      requires stack.Push? && stack.below == Push(conv.KeyAfter(s.top.entries[i]), s)
      modifies this`stack
      ensures
        var w := conv.Follow(s.top.entries, i);
        && result == (match w case AtEntry(_) => More case Ended => NoMore case Lost => InvalidKey)
        && (!w.Lost? ==> stack == Visiting(s, w))
    {
      assert s.top.entries[i].key != Nil;
      Pop();
      assert At(stack, table) == s.top;
      result := Next(table);
    }

    /** The header loop after some turns over the table on top of `s`. */
    ghost predicate Traversing(x: Exchange, s: Stack, before: seq<(string, string)>, turns: nat, more: bool, lost: bool)
      requires s.Push? && s.top.Table?
      reads this, x
    {
      && conv.TurnsCome(s.top.entries, turns, more, lost)
      && (!lost ==> stack == Visiting(s, conv.WalkAfter(s.top.entries, turns)))
      && x.headers == before + conv.HeadersAfter(s.top.entries, turns)
    }

    /** One turn of the header loop. */
    method Turn(x: Exchange, table: nat, ghost s: Stack, ghost before: seq<(string, string)>, ghost turns: nat)
      returns (more: bool, lost: bool)
      requires s.Push? && s.top.Table? && IsLuaTable(s.top.entries) && table == Depth(s)
      requires Traversing(x, s, before, turns, true, false)
      modifies this`stack, x`headers
      ensures Traversing(x, s, before, turns + 1, more, lost)
    {
      ghost var es, i := s.top.entries, conv.WalkAfter(s.top.entries, turns).i;
      conv.OneTurn(es, turns);
      ReadHeader(x, s, i);
      var result := Advance(table, s, i);
      more, lost := result.More?, result.InvalidKey?;
    }

    /** `lua_pushnil` and `lua_next`. */
    method BeginTraversal(x: Exchange, table: nat) returns (more: bool)
      requires stack.Push? && stack.top.Table? && table == Depth(stack)
      modifies this`stack
      ensures Traversing(x, old(stack), x.headers, 0, more, false)
    {
      more := Start(table);
      assert x.headers == x.headers + conv.HeadersAfter(old(stack).top.entries, 0);
    }

    lemma TraversalDone(x: Exchange, s: Stack, before: seq<(string, string)>, turns: nat, more: bool, lost: bool)
      requires s.Push? && s.top.Table? && turns <= |s.top.entries| && (more ==> turns == |s.top.entries|)
      requires Traversing(x, s, before, turns, more, lost)
      ensures lost == conv.Fate(s.top.entries).Lost? && more == conv.Fate(s.top.entries).AtEntry?
      ensures !more && !lost ==> stack == s && x.headers == before + conv.HeadersOf(s.top.entries)
    {
      conv.CameOut(s.top.entries, turns, more, lost);
    }

    /** The header loop, over the table on top of `s`. If it has not come out after as many
        turns as there are entries it never will, and the source never gets further. */
    method Turns(x: Exchange, table: nat, first: bool, limit: nat, ghost s: Stack, ghost before: seq<(string, string)>)
      returns (more: bool, lost: bool, ghost turns: nat)
      requires s.Push? && s.top.Table? && IsLuaTable(s.top.entries) && table == Depth(s)
      requires limit == |s.top.entries| && Traversing(x, s, before, 0, first, false)
      modifies this`stack, x`headers
      ensures turns <= limit && (more ==> turns == limit) && Traversing(x, s, before, turns, more, lost)
    {
      var count: nat := 0;
      more, lost, turns := first, false, 0;
      while more && count < limit
        invariant turns == count <= limit && !(more && lost) && Traversing(x, s, before, turns, more, lost)
        decreases limit - count
      {
        more, lost := Turn(x, table, s, before, turns);
        count, turns := count + 1, turns + 1;
      }
    }

    /** Reads the header table, which is on top of the stack. */
    method ReadHeaders(x: Exchange) returns (ended: bool, lost: bool)
      requires stack.Push? && stack.top.Table? && IsLuaTable(stack.top.entries)
      modifies this`stack, x`headers
      ensures ended == conv.Fate(old(stack).top.entries).Ended? && lost == conv.Fate(old(stack).top.entries).Lost?
      ensures ended ==> stack == old(stack) && x.headers == old(x.headers) + conv.HeadersOf(stack.top.entries)
    {
      var table, limit := Depth(stack), |stack.top.entries|;
      var first := BeginTraversal(x, table);
      var more;
      ghost var turns;
      more, lost, turns := Turns(x, table, first, limit, old(stack), old(x.headers));
      TraversalDone(x, old(stack), old(x.headers), turns, more, lost);
      ended := !more && !lost;
    }

    /** From the test of the result to the end: what was read is sent. */
    method ReadResponse(x: Exchange, ghost does: Behaviour) returns (outcome: Outcome)
      requires stack.Push? && x.Fresh() && does.Returns? && does.value == stack.top && IsLuaResult(does)
      modifies this`stack, x
      ensures outcome == conv.Verdict(does)
      ensures
        if outcome.Responded? then
          && conv.IsResponse(does.value) && stack == old(stack).below
          && x.sent == [conv.ResponseOf(does.value, old(x.headers), x.http2)]
        else x.Fresh()
    {
      if !stack.top.Table? { return Threw; }
      GetField("status");
      var status := conv.ToNumber(stack.top);
      if status.None? { return Threw; }
      Pop();
      GetField("headers");
      if !stack.top.Table? { return Threw; }
      var ended, lost := ReadHeaders(x);
      if lost { return Aborted; }
      if !ended { return Diverged; }
      Pop();
      GetField("content");
      if !IsString(stack.top) { return Threw; }
      x.SendResponse(Truncated(status.value), conv.ToText(stack.top));
      // the content and the result
      Pop();
      Pop();
      return Responded;
    }

    /** `handle_request` from `lua_getglobal` to where the handler starts to run. */
    method Begin(func: string, req: Request, now: int) returns (ok: bool)
      requires Ready()
      modifies this`stack, this`calls
      ensures ok <==> CStr(func) in globals && globals[CStr(func)].Function?
      ensures !ok ==> calls == old(calls)
      ensures ok ==>
        && stack.Push? && stack.below.Push? && IsEmptyResponse(stack.top) && IsRequestTable(stack.below.top, req, now)
        && stack.below.below == Push(globals[CStr(func)], entry) && At(stack, tracebackIdx) == TRACEBACK
        && calls == old(calls) + [Call(globals[CStr(func)], stack.below.top, stack.top)]
      ensures ok == Defined(globals, func) && (ok ==> Calling())
      ensures Calls(globals, old(calls), calls, func, req, now)
    {
      GetGlobal(CStr(func));
      if !stack.top.Function? { return false; }
      PushRequest(req, now);
      PushResponse();
      AtBelow(stack, tracebackIdx);
      StartCall(tracebackIdx);
      return true;
    }

    /** `handle_request` from where the handler is done to `free_state`. */
    method Finish(x: Exchange, does: Behaviour) returns (outcome: Outcome)
      requires Calling() && x.Fresh() && IsLuaResult(does)
      modifies this`stack, this`globals, x
      ensures outcome == conv.Verdict(does) && globals == does.globals
      ensures outcome.Responded? ==> stack == entry && At(stack, tracebackIdx) == TRACEBACK
      ensures
        if outcome.Responded? then
          && Ready() && does.Returns? && conv.IsResponse(does.value)
          && x.sent == [conv.ResponseOf(does.value, old(x.headers), x.http2)]
        else x.Fresh()
    {
      var failed := EndCall(does);
      if failed {
        // the message is made from what lua_tostring gives, a null pointer if nothing
        return if IsString(stack.top) then Threw else Crashed;
      }
      outcome := ReadResponse(x, does);
    }
  }

  // ----- the engine

  /** The engine on one worker: the states pooled there, and those whose handlers are
      running. Handlers are fibers, so requests overlap; between `BeginRequest` and
      `FinishRequest` of one any of the two may happen for others. */
  class Engine {
    const conv: Conversions
    var pool: seq<LuaState>
    var active: set<LuaState>

    /** Every pooled state is as `create_state` left it, its stack untouched and the
        traceback function at its index; every active one has nothing but its own call
        on top of that. No state is in two places. */
    ghost predicate Valid()
      reads this, pool, active
    {
      && NoDup(pool)
      && (forall L <- pool :: L.Ready() && L.conv == conv)
      && (forall L <- active :: L.Calling() && L.conv == conv && L !in pool)
    }

    constructor (conv: Conversions)
      ensures Valid() && pool == [] && active == {} && this.conv == conv
    {
      this.conv, pool, active := conv, [], {};
    }

    /** The state that the next request gets from the pool; with an empty pool one is
        created with the given globals, unless that fails. */
    method Take(created: bool, below: Stack, globals: map<string, Value>) returns (L: LuaState?)
      requires Valid()
      modifies this`pool
      ensures Valid() && L !in pool && L !in active
      ensures
        if old(pool) != [] then
          var n := |old(pool)| - 1;
          L == old(pool)[n] && pool == old(pool)[..n]
        else pool == [] && (L != null <==> created) && (L != null ==> fresh(L) && L.globals == globals)
      ensures L != null ==> L.Ready() && L.conv == conv
    {
      if pool != [] {
        L := pool[|pool| - 1];
        assert L in pool;
        pool := pool[..|pool| - 1];
      } else if created {
        L := new LuaState(below, globals, conv);
      } else {
        L := null;
      }
    }

    /** The globals of the state that the next request gets. */
    ghost function NextGlobals(globals: map<string, Value>): map<string, Value>
      reads this, pool
    {
      if pool != [] then pool[|pool| - 1].globals else globals
    }

    /** Whether the next request's handler will be called. */
    ghost predicate Reaches(func: string, created: bool, globals: map<string, Value>)
      reads this, pool
    {
      (pool != [] || created) && Defined(NextGlobals(globals), func)
    }

    /** `handle_request` up to the handler. Without a handler the request throws and the
        state is lost. */
    method BeginRequest(func: string, req: Request, now: int,
                        created: bool, below: Stack, globals: map<string, Value>)
      returns (L: LuaState?)
      requires Valid()
      modifies this, pool
      ensures Valid() && (L != null <==> old(Reaches(func, created, globals)))
      ensures L != null <==>
        var g := old(if pool != [] then pool[|pool| - 1].globals else globals);
        (old(pool) != [] || created) && CStr(func) in g && g[CStr(func)].Function?
      ensures L != null ==> L !in old(active) && (L in old(pool) || fresh(L)) && CalledWith(L.calls, req, now)
      ensures active == if L != null then old(active) + {L} else old(active)
      ensures
        if old(pool) == [] then pool == []
        else
          var n := |old(pool)| - 1;
          pool == old(pool)[..n] && (L != null ==> L == old(pool)[n])
    {
      L := Take(created, below, globals);
      if L == null { return; }
      var ok := L.Begin(func, req, now);
      assert Valid();
      if !ok { return null; }
      Activate(L);
    }

    method Activate(L: LuaState)
      requires Valid() && L !in pool && L.Calling() && L.conv == conv
      modifies this`active
      ensures Valid() && active == old(active) + {L} && L.calls == old(L.calls)
    {
      active := active + {L};
    }

    /** The rest of `handle_request`, once the handler is done. The state goes back to the
        pool exactly when the request is answered. */
    method FinishRequest(L: LuaState, x: Exchange, does: Behaviour) returns (outcome: Outcome)
      requires Valid() && L in active && x.Fresh() && IsLuaResult(does)
      modifies this, L, x
      ensures Valid() && active == old(active) - {L} && outcome == conv.Verdict(does)
      ensures pool == if outcome.Responded? then old(pool) + [L] else old(pool)
      ensures forall S <- pool :: S.stack == S.entry && At(S.stack, S.tracebackIdx) == TRACEBACK
      ensures
        if outcome.Responded? then
          && does.Returns? && conv.IsResponse(does.value)
          && x.sent == [conv.ResponseOf(does.value, old(x.headers), x.http2)]
        else x.Fresh()
    {
      active := active - {L};
      outcome := L.Finish(x, does);
      if outcome.Responded? {
        pool := pool + [L];
      }
    }

    lemma Rejoin(was: seq<LuaState>, rest: seq<LuaState>, L: LuaState)
      ensures was != [] && rest == was[..|was| - 1] && L == was[|was| - 1] ==> rest + [L] == was
    {
    }

    /** `handle_request` (src/core/lua_engine.cpp:70-122), uninterrupted. */
    method HandleRequest(func: string, x: Exchange, now: int, does: Behaviour,
                         created: bool, below: Stack, globals: map<string, Value>)
      returns (outcome: Outcome)
      requires Valid() && x.Fresh() && IsLuaResult(does)
      modifies this, pool, x
      ensures Valid() && active == old(active)
      ensures outcome == if old(Reaches(func, created, globals)) then conv.Verdict(does) else Threw
      ensures
        if outcome.Responded? then
          && does.Returns? && conv.IsResponse(does.value)
          && x.sent == [conv.ResponseOf(does.value, old(x.headers), x.http2)]
        else x.Fresh()
      ensures
        if old(pool) != [] then pool == if outcome.Responded? then old(pool) else old(pool)[..|old(pool)| - 1]
        else if outcome.Responded? then |pool| == 1 && fresh(pool[0])
        else pool == []
    {
      var L := BeginRequest(func, x.request, now, created, below, globals);
      if L == null { return Threw; }
      ghost var rest := pool;
      Rejoin(old(pool), rest, L);
      outcome := FinishRequest(L, x, does);
    }

    /** The branches of the route handler. */
    method Route(func: string, x: Exchange, now: int, does: Behaviour,
                 created: bool, below: Stack, globals: map<string, Value>)
      returns (outcome: Outcome)
      requires Valid() && x.Fresh() && IsLuaResult(does)
      modifies this, pool, x
      ensures Valid() && active == old(active)
      ensures
        if x.request.httpMethod != "GET" && x.request.httpMethod != "POST" then
          && outcome.Responded? && pool == old(pool)
          && x.sent == [Response(501, Completed(old(x.headers), "", x.http2), "")]
        else
          && outcome == (if old(Reaches(func, created, globals)) then conv.Verdict(does) else Threw)
          && match outcome
             case Responded =>
               && does.Returns? && conv.IsResponse(does.value)
               && x.sent == [conv.ResponseOf(does.value, old(x.headers), x.http2)]
             case Threw => |x.sent| == 1 && x.sent[0].status == 500 && x.sent[0].content == ""
             case _ => x.sent == []
    {
      if x.request.httpMethod == "GET" || x.request.httpMethod == "POST" {
        outcome := HandleRequest(func, x, now, does, created, below, globals);
        if outcome.Threw? {
          x.SendResponse(500, "");
        }
      } else {
        outcome := Responded;
        x.SendResponse(501, "");
      }
    }

    /** The route handler of the server (src/core/server_impl.cpp:183-223): 501 for other
        methods than GET and POST, the handler's response, or 500 after an exception.
        Exactly then one response is sent; a call that crashes, aborts or diverges
        sends none. */
    method Serve(func: string, x: Exchange, now: int, does: Behaviour,
                 created: bool, below: Stack, globals: map<string, Value>)
      returns (outcome: Outcome)
      requires Valid() && x.Fresh() && IsLuaResult(does)
      modifies this, pool, x
      ensures Valid() && active == old(active)
      ensures
        if x.request.httpMethod != "GET" && x.request.httpMethod != "POST" then
          && outcome.Responded? && pool == old(pool)
          && x.sent == [Response(501, Completed(old(x.headers), "", x.http2), "")]
        else
          && outcome == (if old(Reaches(func, created, globals)) then conv.Verdict(does) else Threw)
          && match outcome
             case Responded =>
               && does.Returns? && conv.IsResponse(does.value)
               && x.sent == [conv.ResponseOf(does.value, old(x.headers), x.http2)]
             case Threw => |x.sent| == 1 && x.sent[0].status == 500 && x.sent[0].content == ""
             case _ => x.sent == []
      ensures
        var g := old(if pool != [] then pool[|pool| - 1].globals else globals);
        var called := (old(pool) != [] || created) && CStr(func) in g && g[CStr(func)].Function?;
        x.request.httpMethod == "GET" || x.request.httpMethod == "POST" ==>
          && (!called ==> |x.sent| == 1 && x.sent[0].status == 500)
          && (called && does.Raises? ==>
                var e, m := does.error, does.tostring;
                if e.Str? || e.Number? || (e != Nil && (m.Some? ==> m.value.Str? || m.value.Number?))
                then |x.sent| == 1 && x.sent[0].status == 500
                else x.sent == [])
          && (called && does.Returns? ==>
                var v := does.value;
                var status, h, c := Field(v, "status"), Field(v, "headers"), Field(v, "content");
                if !v.Table? || conv.ToNumber(status).None? || !h.Table? then |x.sent| == 1 && x.sent[0].status == 500
                else if conv.Fate(h.entries) != Ended then x.sent == []
                else if !c.Str? && !c.Number? then |x.sent| == 1 && x.sent[0].status == 500
                else
                  |x.sent| == 1 && x.sent[0].status == Truncated(conv.ToNumber(status).value)
                  && x.sent[0].content == (if c.Str? then c.s else conv.text(c.r))
                  && x.sent[0].headers ==
                     Completed(old(x.headers) + conv.HeadersOf(h.entries), x.sent[0].content, x.http2))
    {
      if does.Returns? {
        conv.ReturnedIs(does.value, does.globals);
      } else {
        conv.FailureThrowsIff(does.error, does.tostring, does.trace, does.globals);
      }
      outcome := Route(func, x, now, does, created, below, globals);
    }
  }
}
