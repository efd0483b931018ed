/** The JSON text an item's `properties` column holds: `JSON.stringify` on the way in and
    `JSON.parse` on the way out, for an object whose values are strings. Keys keep their
    insertion order, as JavaScript objects do for keys that are not array indexes; texts
    written by `JSON.stringify` list integer-like keys first already, so both agree there. */
module Json {
  import opened Wrappers
  import opened Seqs

  /** A flat JSON object: its members in order. */
  type Props = seq<(string, string)>

  predicate DistinctKeys(p: Props) {
    forall i, j :: 0 <= i < j < |p| ==> p[i].0 != p[j].0
  }

  predicate HasKey(p: Props, k: string) {
    exists i :: 0 <= i < |p| && p[i].0 == k
  }

  /** The value of member `k`, if there is one. */
  function Get(p: Props, k: string): (r: Option<string>)
    ensures r.Some? <==> HasKey(p, k)
  {
    if p == [] then None
    else if p[0].0 == k then Some(p[0].1)
    else
      assert HasKey(p, k) <==> HasKey(p[1..], k) by {
        if HasKey(p, k) {
          var i :| 0 <= i < |p| && p[i].0 == k;
          assert p[1..][i - 1].0 == k;
        }
        if HasKey(p[1..], k) {
          var i :| 0 <= i < |p[1..]| && p[1..][i].0 == k;
          assert p[i + 1].0 == k;
        }
      }
      Get(p[1..], k)
  }

  /** Looking a key up in an object with one more member in front. */
  lemma GetCons(m: (string, string), p: Props)
    ensures forall k :: Get([m] + p, k) == if m.0 == k then Some(m.1) else Get(p, k)
    ensures forall k :: HasKey([m] + p, k) <==> m.0 == k || HasKey(p, k)
  {
    assert ([m] + p)[1..] == p;
    forall k ensures HasKey([m] + p, k) <==> m.0 == k || HasKey(p, k) {
      if m.0 == k {
        assert ([m] + p)[0].0 == k;
      }
      if HasKey(p, k) {
        var i :| 0 <= i < |p| && p[i].0 == k;
        assert ([m] + p)[i + 1].0 == k;
      }
      if HasKey([m] + p, k) {
        var i :| 0 <= i < |[m] + p| && ([m] + p)[i].0 == k;
        if i > 0 {
          assert p[i - 1].0 == k;
        }
      }
    }
  }

  /** Member `k` set to `v`, as `JSON.parse` does for each member it reads: a repeated key
      overwrites the earlier value in place, a new key goes last. */
  function Put(p: Props, k: string, v: string): (r: Props)
    ensures Get(r, k) == Some(v)
    ensures forall k' :: k' != k ==> Get(r, k') == Get(p, k')
    ensures !HasKey(p, k) ==> r == p + [(k, v)]
  {
    if p == [] then
      GetCons((k, v), []);
      [(k, v)]
    else
      GetCons(p[0], p[1..]);
      assert [p[0]] + p[1..] == p;
      if p[0].0 == k then
        GetCons((k, v), p[1..]);
        [(k, v)] + p[1..]
      else
        var rest := Put(p[1..], k, v);
        GetCons(p[0], rest);
        assert [p[0]] + (p[1..] + [(k, v)]) == p + [(k, v)];
        [p[0]] + rest
  }

  // ---------------------------------------------------------------- encoding

  function HexDigit(n: nat): char
    requires n < 16
  {
    if n < 10 then ('0' as int + n) as char else ('a' as int + n - 10) as char
  }

  function HexValue(c: char): (r: Option<nat>)
    ensures r.Some? ==> r.value < 16
  {
    if '0' <= c <= '9' then Some(c as int - '0' as int)
    else if 'a' <= c <= 'f' then Some(c as int - 'a' as int + 10)
    else if 'A' <= c <= 'F' then Some(c as int - 'A' as int + 10)
    else None
  }

  lemma HexRoundTrip(n: nat)
    requires n < 16
    ensures HexValue(HexDigit(n)) == Some(n)
  {
  }

  /** How `JSON.stringify` writes one character inside a string literal: the quote, the
      backslash and the control characters are escaped, short forms where JSON has them and
      `\u00xx` (lower-case hex) otherwise. */
  function EscapeChar(c: char): string {
    if c == '"' then "\\\""
    else if c == '\\' then "\\\\"
    else if c == '\U{0008}' then "\\b"
    else if c == '\U{000C}' then "\\f"
    else if c == '\n' then "\\n"
    else if c == '\r' then "\\r"
    else if c == '\t' then "\\t"
    else if c < ' ' then "\\u00" + [HexDigit(c as int / 16), HexDigit(c as int % 16)]
    else [c]
  }

  function EscapeStr(s: string): string {
    if s == [] then [] else EscapeChar(s[0]) + EscapeStr(s[1..])
  }

  /** A string literal. */
  function Quote(s: string): string {
    "\"" + EscapeStr(s) + "\""
  }

  function Member(k: string, v: string): string {
    Quote(k) + ":" + Quote(v)
  }

  /** The members after the first, each preceded by a comma. */
  function MoreMembers(q: Props): string {
    if q == [] then [] else "," + Member(q[0].0, q[0].1) + MoreMembers(q[1..])
  }

  /** `JSON.stringify(p)`: compact, no whitespace. */
  function Encode(p: Props): (r: string)
    ensures |r| >= 2 && r[0] == '{' && r[|r| - 1] == '}'
  {
    if p == [] then "{}" else "{" + Member(p[0].0, p[0].1) + MoreMembers(p[1..]) + "}"
  }

  // ---------------------------------------------------------------- decoding

  /** The escape sequence at the head of `s` (which starts with a backslash): the character
      it stands for and its length. A `\u` escape naming a surrogate is refused. */
  function EscapeAt(s: string): (r: Option<(char, nat)>)
    requires |s| > 0 && s[0] == '\\'
    ensures r.Some? ==> 2 <= r.value.1 <= |s|
  {
    if |s| < 2 then None
    else if s[1] == '"' then Some(('"', 2))
    else if s[1] == '\\' then Some(('\\', 2))
    else if s[1] == '/' then Some(('/', 2))
    else if s[1] == 'b' then Some(('\U{0008}', 2))
    else if s[1] == 'f' then Some(('\U{000C}', 2))
    else if s[1] == 'n' then Some(('\n', 2))
    else if s[1] == 'r' then Some(('\r', 2))
    else if s[1] == 't' then Some(('\t', 2))
    else if s[1] == 'u' && |s| >= 6 then
      match (HexValue(s[2]), HexValue(s[3]), HexValue(s[4]), HexValue(s[5]))
      case (Some(a), Some(b), Some(c), Some(d)) =>
        var code := 4096 * a + 256 * b + 16 * c + d;
        if 0xD800 <= code < 0xE000 then None else Some((code as char, 6))
      case _ => None
    else None
  }

  /** The body of a string literal up to its closing quote: the characters it denotes and
      the text after the quote. An unescaped control character is refused. */
  function ParseChars(s: string): (r: Option<(string, string)>)
    ensures r.Some? ==> |r.value.1| < |s|
    decreases |s|
  {
    if s == [] then None
    else if s[0] == '"' then Some(([], s[1..]))
    else if s[0] == '\\' then
      match EscapeAt(s)
      case None => None
      case Some((c, n)) => Prepend(c, ParseChars(s[n..]))
    else if s[0] < ' ' then None
    else Prepend(s[0], ParseChars(s[1..]))
  }

  function Prepend(c: char, r: Option<(string, string)>): Option<(string, string)> {
    match r
    case None => None
    case Some((v, rest)) => Some(([c] + v, rest))
  }

  /** A string literal at the head of `s`. */
  function ParseQuoted(s: string): (r: Option<(string, string)>)
    ensures r.Some? ==> |r.value.1| < |s|
  {
    if |s| > 0 && s[0] == '"' then ParseChars(s[1..]) else None
  }

  /** A `"key":"value"` member at the head of `s`, and the text after it. */
  function ParseMember(s: string): (r: Option<(string, string, string)>)
    ensures r.Some? ==> |r.value.2| < |s|
  {
    match ParseQuoted(s)
    case None => None
    case Some((k, r1)) =>
      if |r1| > 0 && r1[0] == ':' then
        match ParseQuoted(r1[1..])
        case None => None
        case Some((v, r2)) => Some((k, v, r2))
      else None
  }

  /** After a member: either the closing brace, which must end the text, or a comma and
      another member. */
  function ParseMore(s: string, acc: Props): Option<Props>
    decreases |s|
  {
    if s == "}" then Some(acc)
    else if |s| > 0 && s[0] == ',' then
      match ParseMember(s[1..])
      case None => None
      case Some((k, v, rest)) => ParseMore(rest, Put(acc, k, v))
    else None
  }

  /** `JSON.parse` of a flat object of strings written without whitespace; `None` where
      `JSON.parse` would throw. */
  function Decode(s: string): Option<Props> {
    if s == "{}" then Some([])
    else if |s| > 0 && s[0] == '{' then
      match ParseMember(s[1..])
      case None => None
      case Some((k, v, rest)) => ParseMore(rest, Put([], k, v))
    else None
  }

  // ---------------------------------------------------------------- round trip

  /** Reading an escaped character yields the character and resumes right after it. */
  lemma EscapeCharRoundTrip(c: char, t: string)
    ensures ParseChars(EscapeChar(c) + t) == Prepend(c, ParseChars(t))
  {
    var s := EscapeChar(c) + t;
    if c == '"' || c == '\\' || c == '\U{0008}' || c == '\U{000C}' || c == '\n' || c == '\r' || c == '\t' {
      assert s[2..] == t;
    } else if c < ' ' {
      UnicodeEscapeRoundTrip(c, t);
    } else {
      assert s[1..] == t;
    }
  }

  /** A control character without a short escape reads back from its `\u00xx` form. */
  lemma UnicodeEscapeRoundTrip(c: char, t: string)
    requires c < ' ' && c != '\U{0008}' && c != '\U{000C}' && c != '\n' && c != '\r' && c != '\t'
    ensures ParseChars(EscapeChar(c) + t) == Prepend(c, ParseChars(t))
  {
    var hi := c as int / 16;
    var lo := c as int % 16;
    var s := EscapeChar(c) + t;
    assert s == "\\u00" + [HexDigit(hi), HexDigit(lo)] + t;
    assert EscapeAt(s) == Some((c, 6)) by {
      HexRoundTrip(hi);
      HexRoundTrip(lo);
      assert s[2] == '0' && s[3] == '0' && s[4] == HexDigit(hi) && s[5] == HexDigit(lo);
      assert 16 * hi + lo == c as int;
    }
    assert s[6..] == t;
  }

  /** A quoted string reads back as itself, leaving the text after the closing quote. */
  lemma {:induction false} EscapeStrRoundTrip(v: string, rest: string)
    ensures ParseChars(EscapeStr(v) + "\"" + rest) == Some((v, rest))
  {
    if v == [] {
      assert EscapeStr(v) + "\"" + rest == "\"" + rest;
      assert ("\"" + rest)[1..] == rest;
    } else {
      var t := EscapeStr(v[1..]) + "\"" + rest;
      assert EscapeStr(v) + "\"" + rest == EscapeChar(v[0]) + t;
      EscapeCharRoundTrip(v[0], t);
      EscapeStrRoundTrip(v[1..], rest);
      assert [v[0]] + v[1..] == v;
    }
  }

  lemma QuoteRoundTrip(v: string, rest: string)
    ensures ParseQuoted(Quote(v) + rest) == Some((v, rest))
  {
    assert (Quote(v) + rest)[1..] == EscapeStr(v) + "\"" + rest;
    EscapeStrRoundTrip(v, rest);
  }



  lemma MemberRoundTrip(k: string, v: string, rest: string)
    ensures ParseMember(Member(k, v) + rest) == Some((k, v, rest))
  {
    var r2 := Quote(v) + rest;
    var r1 := ":" + r2;
    assert Member(k, v) + rest == Quote(k) + r1 by {
      Concat3(Quote(k) + ":", Quote(v), rest);
      Concat3(Quote(k), ":", r2);
    }
    assert ParseQuoted(Quote(k) + r1) == Some((k, r1)) by {
      QuoteRoundTrip(k, r1);
    }
    assert r1[1..] == r2;
    assert ParseQuoted(r2) == Some((v, rest)) by {
      QuoteRoundTrip(v, rest);
    }
  }

  /** The text after the first member starts with a comma and the next member. */
  lemma MoreMembersHead(q: Props)
    requires q != []
    ensures var s := MoreMembers(q) + "}";
      && |s| > 1 && s[0] == ','
      && ParseMember(s[1..]) == Some((q[0].0, q[0].1, MoreMembers(q[1..]) + "}"))
  {
    var m := Member(q[0].0, q[0].1);
    var rest := MoreMembers(q[1..]) + "}";
    var s := MoreMembers(q) + "}";
    assert s == "," + (m + rest) by {
      assert MoreMembers(q) == "," + m + MoreMembers(q[1..]);
      Concat3("," + m, MoreMembers(q[1..]), "}");
      Concat3(",", m, rest);
    }
    assert s[1..] == m + rest;
    assert ParseMember(m + rest) == Some((q[0].0, q[0].1, rest)) by {
      MemberRoundTrip(q[0].0, q[0].1, rest);
    }
  }

  /** With distinct keys, the next member's key is new to the members read so far. */
  lemma DistinctNext(acc: Props, q: Props)
    requires q != [] && DistinctKeys(acc + q)
    ensures !HasKey(acc, q[0].0)
    ensures DistinctKeys((acc + [q[0]]) + q[1..])
  {
    forall i | 0 <= i < |acc|
      ensures acc[i].0 != q[0].0
    {
      assert (acc + q)[i] == acc[i] && (acc + q)[|acc|] == q[0];
    }
    assert (acc + [q[0]]) + q[1..] == acc + q;
  }

  /** One comma-separated member read by `ParseMore`. */
  lemma ParseMoreStep(s: string, acc: Props, k: string, v: string, rest: string)
    requires |s| > 1 && s[0] == ','
    requires ParseMember(s[1..]) == Some((k, v, rest))
    ensures ParseMore(s, acc) == ParseMore(rest, Put(acc, k, v))
  {
  }

  /** Reading the next member moves it from the text onto the members read so far. */
  lemma MoreMembersStep(q: Props, acc: Props)
    requires q != [] && DistinctKeys(acc + q)
    ensures ParseMore(MoreMembers(q) + "}", acc) == ParseMore(MoreMembers(q[1..]) + "}", acc + [q[0]])
    ensures DistinctKeys((acc + [q[0]]) + q[1..])
  {
    var s := MoreMembers(q) + "}";
    MoreMembersHead(q);
    DistinctNext(acc, q);
    ParseMoreStep(s, acc, q[0].0, q[0].1, MoreMembers(q[1..]) + "}");
  }

  /** The members after the first read back onto whatever was read before them. */
  lemma {:induction false} MoreMembersRoundTrip(q: Props, acc: Props)
    requires DistinctKeys(acc + q)
    ensures ParseMore(MoreMembers(q) + "}", acc) == Some(acc + q)
  {
    if q == [] {
      assert MoreMembers(q) + "}" == "}";
      assert acc + q == acc;
    } else {
      var acc' := acc + [q[0]];
      var rest := MoreMembers(q[1..]) + "}";
      assert ParseMore(MoreMembers(q) + "}", acc) == ParseMore(rest, acc') by {
        MoreMembersStep(q, acc);
      }
      assert ParseMore(rest, acc') == Some(acc' + q[1..]) by {
        MoreMembersStep(q, acc);
        MoreMembersRoundTrip(q[1..], acc');
      }
      assert acc' + q[1..] == acc + q by {
        MoveHead(acc, q);
      }
    }
  }

  /** `JSON.parse(JSON.stringify(p))` gives back `p`. */
  lemma DecodeEncode(p: Props)
    requires DistinctKeys(p)
    ensures Decode(Encode(p)) == Some(p)
  {
    if p != [] {
      DecodeFirstMember(p);
      assert [p[0]] + p[1..] == p;
      MoreMembersRoundTrip(p[1..], [p[0]]);
    }
  }

  /** Decoding a non-empty object reads its first member and goes on with the rest. */
  lemma DecodeFirstMember(p: Props)
    requires p != []
    ensures Decode(Encode(p)) == ParseMore(MoreMembers(p[1..]) + "}", [p[0]])
  {
    var rest := MoreMembers(p[1..]) + "}";
    var t := Member(p[0].0, p[0].1) + rest;
    EncodeShape(p);
    MemberRoundTrip(p[0].0, p[0].1, rest);
    DecodeOpen(t);
    assert Put([], p[0].0, p[0].1) == [p[0]];
  }

  lemma EncodeShape(p: Props)
    requires p != []
    ensures Encode(p) == "{" + (Member(p[0].0, p[0].1) + (MoreMembers(p[1..]) + "}"))
    ensures |Member(p[0].0, p[0].1)| > 1
  {
  }

  /** An object text other than `{}` starts with its first member. */
  lemma DecodeOpen(t: string)
    requires |t| > 1
    ensures Decode("{" + t) == match ParseMember(t)
      case None => None
      case Some((k, v, rest)) => ParseMore(rest, Put([], k, v))
  {
    var s := "{" + t;
    assert s[1..] == t;
    assert s != "{}" by {
      assert |s| > 2;
    }
  }
}
