/** The parts of the WHATWG URL Standard the share link uses: a `URLSearchParams` object
    (an ordered list of name-value pairs with `has`, `get` and `set`), its serialisation as
    application/x-www-form-urlencoded text, and `decodeURIComponent`. */
module Url {
  import opened Wrappers
  import opened JsString

  /** One name-value pair of a `URLSearchParams` list. */
  datatype Param = Param(name: string, value: string)

  /** The list of a `URLSearchParams` object, in order. */
  type Query = seq<Param>

  /** `params.has(name)`. */
  predicate Has(q: Query, name: string)
  {
    q != [] && (q[0].name == name || Has(q[1..], name))
  }

  /** `params.get(name)`: the value of the first pair with that name, or null. */
  function Get(q: Query, name: string): (v: Option<string>)
    ensures v.Some? <==> Has(q, name)
  {
    if q == [] then None
    else if q[0].name == name then Some(q[0].value)
    else Get(q[1..], name)
  }

  /** A list with one more pair at the end has that pair's name besides its own. */
  lemma {:induction false} HasAppend(q: Query, p: Param, n: string)
    ensures Has(q + [p], n) <==> Has(q, n) || p.name == n
  {
    if q != [] {
      HasAppend(q[1..], p, n);
      assert (q + [p])[1..] == q[1..] + [p];
    }
  }

  /** A list that `has` no pair with a name holds no pair with that name at any index. */
  lemma {:induction false} NotHasAnywhere(q: Query, name: string)
    requires !Has(q, name)
    ensures forall i :: 0 <= i < |q| ==> q[i].name != name
  {
    if q != [] {
      NotHasAnywhere(q[1..], name);
      assert forall i :: 1 <= i < |q| ==> q[i] == q[1..][i - 1];
    }
  }

  /** `get` returns the value of the first pair with the name. */
  lemma {:induction false} GetFirstMatch(q: Query, name: string, i: nat)
    requires i < |q| && q[i].name == name
    requires forall j :: 0 <= j < i ==> q[j].name != name
    ensures Get(q, name) == Some(q[i].value)
  {
    if i > 0 {
      assert forall j :: 0 <= j < i - 1 ==> q[1..][j] == q[j + 1];
      GetFirstMatch(q[1..], name, i - 1);
    }
  }

  /** Looking a name up in a list that starts with `p`. */
  lemma GetCons(p: Param, rest: Query, n: string)
    ensures Get([p] + rest, n) == if p.name == n then Some(p.value) else Get(rest, n)
  {
    assert ([p] + rest)[1..] == rest;
  }

  /** The pairs of `q` without those named `name`, in order. */
  function RemoveAll(q: Query, name: string): (r: Query)
    ensures !Has(r, name)
  {
    if q == [] then []
    else if q[0].name == name then RemoveAll(q[1..], name)
    else [q[0]] + RemoveAll(q[1..], name)
  }

  /** Removing one name does not change what `get` answers for any other name. */
  lemma {:induction false} RemoveAllKeepsOthers(q: Query, name: string, n: string)
    requires n != name
    ensures Get(RemoveAll(q, name), n) == Get(q, n)
  {
    if q != [] {
      RemoveAllKeepsOthers(q[1..], name, n);
      if q[0].name != name {
        GetCons(q[0], RemoveAll(q[1..], name), n);
      }
    }
  }

  /** `params.set(name, value)`: the first pair with that name takes the new value and the
      others with that name are removed; with no such pair, one is appended. */
  function Set(q: Query, name: string, value: string): (r: Query)
    ensures Get(r, name) == Some(value)
    ensures !Has(q, name) ==> r == q + [Param(name, value)]
  {
    if q == [] then [Param(name, value)]
    else if q[0].name == name then
      GetCons(Param(name, value), RemoveAll(q[1..], name), name);
      [Param(name, value)] + RemoveAll(q[1..], name)
    else
      GetCons(q[0], Set(q[1..], name, value), name);
      assert q == [q[0]] + q[1..];
      [q[0]] + Set(q[1..], name, value)
  }

  /** After `set`, exactly one pair carries the name. */
  lemma {:induction false} SetLeavesOnePair(q: Query, name: string, value: string)
    ensures forall i, j :: 0 <= i < j < |Set(q, name, value)| ==>
              Set(q, name, value)[i].name != name || Set(q, name, value)[j].name != name
  {
    var r := Set(q, name, value);
    if q != [] {
      if q[0].name == name {
        var tail := RemoveAll(q[1..], name);
        NotHasAnywhere(tail, name);
        assert r[1..] == tail;
        forall j | 1 <= j < |r| ensures r[j].name != name {
          assert r[j] == tail[j - 1];
        }
      } else {
        SetLeavesOnePair(q[1..], name, value);
        assert r[1..] == Set(q[1..], name, value);
      }
    }
  }

  /** `set` does not change what `get` answers for any other name. */
  lemma {:induction false} SetKeepsOthers(q: Query, name: string, value: string, n: string)
    requires n != name
    ensures Get(Set(q, name, value), n) == Get(q, n)
  {
    if q != [] {
      if q[0].name == name {
        GetCons(Param(name, value), RemoveAll(q[1..], name), n);
        RemoveAllKeepsOthers(q[1..], name, n);
      } else {
        GetCons(q[0], Set(q[1..], name, value), n);
        SetKeepsOthers(q[1..], name, value, n);
      }
    }
  }

  /** The characters the form-urlencoded serialiser writes as they are. */
  predicate IsUnreserved(c: char) {
    ('a' <= c <= 'z') || ('A' <= c <= 'Z') || ('0' <= c <= '9') ||
    c == '*' || c == '-' || c == '.' || c == '_'
  }

  /** The characters that can occur in serialised output. */
  predicate IsFormSafe(c: char) {
    IsUnreserved(c) || c == '+' || c == '%'
  }

  const HEX_DIGITS: string := "0123456789ABCDEF"

  /** The UTF-8 encoding of one character (section 3 of RFC 3629): an ASCII character is
      its own byte; any other starts with a lead byte of at least 0xC0 followed by
      continuation bytes in 0x80 to 0xBF, and decodes back to the character. */
  function Utf8(c: char): (bytes: seq<nat>)
    ensures 1 <= |bytes| <= 4 && forall i :: 0 <= i < |bytes| ==> bytes[i] < 256
    ensures c as int < 0x80 <==> |bytes| == 1
    ensures c as int < 0x80 ==> bytes == [c as int]
    ensures |bytes| > 1 ==> 0xC0 <= bytes[0]
    ensures forall i :: 1 <= i < |bytes| ==> 0x80 <= bytes[i] < 0xC0
  {
    var cp := c as int;
    if cp < 0x80 then [cp]
    else if cp < 0x800 then [0xC0 + cp / 0x40, 0x80 + cp % 0x40]
    else if cp < 0x10000 then [0xE0 + cp / 0x1000, 0x80 + (cp / 0x40) % 0x40, 0x80 + cp % 0x40]
    else [0xF0 + cp / 0x40000, 0x80 + (cp / 0x1000) % 0x40, 0x80 + (cp / 0x40) % 0x40, 0x80 + cp % 0x40]
  }

  /** The code point that a well-formed UTF-8 sequence of one to four bytes encodes. */
  function Utf8Decode(bytes: seq<nat>): int
    requires 1 <= |bytes| <= 4
  {
    if |bytes| == 1 then bytes[0]
    else if |bytes| == 2 then Lead(bytes[0], 0xC0) * 0x40 + Cont(bytes[1])
    else if |bytes| == 3 then Lead(bytes[0], 0xE0) * 0x1000 + Cont(bytes[1]) * 0x40 + Cont(bytes[2])
    else Lead(bytes[0], 0xF0) * 0x40000 + Cont(bytes[1]) * 0x1000 + Cont(bytes[2]) * 0x40 + Cont(bytes[3])
  }

  /** The payload bits of a lead byte whose marker bits are `marker`. */
  function Lead(b: nat, marker: nat): int {
    b as int - marker as int
  }

  /** The six payload bits of a continuation byte. */
  function Cont(b: nat): int {
    b as int - 0x80
  }

  /** Decoding the UTF-8 encoding of a character gives back its code point. */
  lemma Utf8RoundTrip(c: char)
    ensures Utf8Decode(Utf8(c)) == c as int
  {
    var cp := c as int;
    if cp >= 0x10000 {
      var q := cp / 0x40;
      var r := q / 0x40;
      assert cp == q * 0x40 + cp % 0x40;
      assert q == r * 0x40 + q % 0x40;
      assert r == cp / 0x1000;
      assert cp / 0x1000 == (cp / 0x40000) * 0x40 + (cp / 0x1000) % 0x40;
    } else if cp >= 0x800 {
      var q := cp / 0x40;
      assert cp == q * 0x40 + cp % 0x40;
      assert q == (cp / 0x1000) * 0x40 + q % 0x40 by { assert q / 0x40 == cp / 0x1000; }
    }
  }

  /** `%XY` with X and Y the upper-case hexadecimal digits of `b`. */
  function PercentByte(b: nat): (s: string)
    requires b < 256
    ensures |s| == 3 && forall i :: 0 <= i < 3 ==> IsFormSafe(s[i])
  {
    "%" + [HEX_DIGITS[b / 16], HEX_DIGITS[b % 16]]
  }

  function PercentBytes(bytes: seq<nat>): (s: string)
    requires forall i :: 0 <= i < |bytes| ==> bytes[i] < 256
    ensures forall i :: 0 <= i < |s| ==> IsFormSafe(s[i])
  {
    if bytes == [] then "" else PercentByte(bytes[0]) + PercentBytes(bytes[1..])
  }

  /** The form-urlencoded form of one character: itself, `+` for a space, or the
      percent-escapes of its UTF-8 bytes. */
  function EncodeChar(c: char): (s: string)
    ensures forall i :: 0 <= i < |s| ==> IsFormSafe(s[i])
  {
    if IsUnreserved(c) then [c] else if c == ' ' then "+" else PercentBytes(Utf8(c))
  }

  /** A name or value as the form-urlencoded serialiser writes it. */
  function FormEncode(s: string): (r: string)
    ensures forall i :: 0 <= i < |r| ==> IsFormSafe(r[i])
  {
    if s == [] then "" else EncodeChar(s[0]) + FormEncode(s[1..])
  }

  /** Text made only of unreserved characters is written unchanged. */
  lemma {:induction false} FormEncodeUnreserved(s: string)
    requires forall i :: 0 <= i < |s| ==> IsUnreserved(s[i])
    ensures FormEncode(s) == s
  {
    if s != [] {
      FormEncodeUnreserved(s[1..]);
      assert s == [s[0]] + s[1..];
    }
  }

  /** One `name=value` field of a serialised query. */
  function Field(p: Param): string {
    FormEncode(p.name) + "=" + FormEncode(p.value)
  }

  /** A name made of unreserved characters is written as it is in front of the `=`. */
  lemma FieldOfPlainName(name: string, value: string)
    requires forall i :: 0 <= i < |name| ==> IsUnreserved(name[i])
    ensures Field(Param(name, value)) == name + "=" + FormEncode(value)
  {
    FormEncodeUnreserved(name);
  }

  /** The `name=value` fields of a serialised query, in order. */
  function Fields(q: Query): (fs: seq<string>)
    ensures |fs| == |q| && forall i :: 0 <= i < |q| ==> fs[i] == Field(q[i])
  {
    seq(|q|, i requires 0 <= i < |q| => Field(q[i]))
  }

  /** `params.toString()`. */
  function Serialize(q: Query): string {
    Join(Fields(q), "&")
  }

  /** Escaping keeps `=` out of encoded names and values, so each field cuts back at `=`
      into the encoded name and the encoded value. */
  lemma FieldSplits(q: Query, i: nat)
    requires i < |q|
    ensures Split(Fields(q)[i], '=') == [FormEncode(q[i].name), FormEncode(q[i].value)]
  {
    var a, b := FormEncode(q[i].name), FormEncode(q[i].value);
    assert Fields(q)[i] == a + "=" + b;
    assert '=' !in a && '=' !in b by {
      assert forall k :: 0 <= k < |a| ==> IsFormSafe(a[k]);
      assert forall k :: 0 <= k < |b| ==> IsFormSafe(b[k]);
    }
    SplitJoin([a, b], '=');
    assert Join([a, b], "=") == Fields(q)[i];
  }

  /** No field contains `&`: escaping keeps it out of names and values. */
  lemma FieldHasNoAmpersand(p: Param)
    ensures '&' !in Field(p)
  {
    var a, b := FormEncode(p.name), FormEncode(p.value);
    assert '&' !in a && '&' !in b by {
      assert forall k :: 0 <= k < |a| ==> IsFormSafe(a[k]);
      assert forall k :: 0 <= k < |b| ==> IsFormSafe(b[k]);
    }
  }

  /** A serialised query cuts back at `&` into its fields, in order. */
  lemma SerializeSplits(q: Query)
    requires |q| >= 1
    ensures Split(Serialize(q), '&') == Fields(q)
  {
    var fs := Fields(q);
    forall i | 0 <= i < |fs| ensures '&' !in fs[i] {
      FieldHasNoAmpersand(q[i]);
    }
    SplitJoin(fs, '&');
  }

  predicate IsHexDigit(c: char) {
    ('0' <= c <= '9') || ('A' <= c <= 'F') || ('a' <= c <= 'f')
  }

  /** The value of a hexadecimal digit: the position of its upper-case form among the
      digits the encoder writes. */
  function HexValue(c: char): (v: nat)
    requires IsHexDigit(c)
    ensures v < 16
    ensures HEX_DIGITS[v] == if 'a' <= c <= 'f' then (c as int - 0x20) as char else c
  {
    if '0' <= c <= '9' then c as int - '0' as int
    else if 'A' <= c <= 'F' then c as int - 'A' as int + 10
    else c as int - 'a' as int + 10
  }

  /** `decodeURIComponent(s)`: each `%XY` escape becomes the character it encodes; None
      stands for the URIError thrown on a malformed escape. Only escapes of single-byte
      (ASCII) characters are decoded; any other escape is reported as an error. */
  function DecodeUriComponent(s: string): (r: Option<string>)
    ensures '%' !in s ==> r == Some(s)
    ensures r.Some? ==> |r.value| <= |s|
  {
    if s == [] then Some([])
    else if s[0] != '%' then
      match DecodeUriComponent(s[1..])
      case None => None
      case Some(rest) => assert s == [s[0]] + s[1..]; Some([s[0]] + rest)
    else if |s| >= 3 && IsHexDigit(s[1]) && IsHexDigit(s[2]) &&
            HexValue(s[1]) * 16 + HexValue(s[2]) < 0x80 then
      match DecodeUriComponent(s[3..])
      case None => None
      case Some(rest) => Some([(HexValue(s[1]) * 16 + HexValue(s[2])) as char] + rest)
    else None
  }

  /** A `%` that does not start an escape makes `decodeURIComponent` throw, and an escape
      is replaced by the character it encodes. */
  lemma DecodeUriComponentExamples()
    ensures DecodeUriComponent("%") == None
    ensures DecodeUriComponent("%23FFF") == Some("#FFF")
  {
    assert IsHexDigit('2') && IsHexDigit('3') && HexValue('2') * 16 + HexValue('3') == 0x23;
    assert "%23FFF"[3..] == "FFF";
    assert DecodeUriComponent("FFF") == Some("FFF");
    assert (0x23 as char) == '#';
    assert DecodeUriComponent("%23FFF") == Some([0x23 as char] + "FFF");
    assert [0x23 as char] + "FFF" == "#FFF";
  }
}
