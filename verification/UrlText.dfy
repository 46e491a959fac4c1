/** Percent-encoding of URL components and scrubbing of URLs for the log. */
module UrlText {
  import opened Prelude

  // ── UTF-8 ───────────────────────────────────────────────────────────────

  /** The UTF-8 bytes of one character. */
  function Utf8(c: char): (bytes: seq<nat>)
    ensures 1 <= |bytes| <= 4 && forall i :: 0 <= i < |bytes| ==> bytes[i] < 256
  {
    var n := c as int;
    var (a, b) := (n / 64, n / 64 / 64);
    if n < 0x80 then [n]
    else if n < 0x800 then [0xC0 + a, 0x80 + n % 64]
    else if n < 0x10000 then [0xE0 + b, 0x80 + a % 64, 0x80 + n % 64]
    else [0xF0 + b / 64, 0x80 + b % 64, 0x80 + a % 64, 0x80 + n % 64]
  }

  function Utf8All(s: string): (bytes: seq<nat>)
    ensures forall i :: 0 <= i < |bytes| ==> bytes[i] < 256
  {
    if s == "" then [] else Utf8(s[0]) + Utf8All(s[1..])
  }

  /** The character an encoding starts with, read back from its bytes. */
  function Utf8Head(bytes: seq<nat>): int {
    if bytes == [] then -1
    else
      var lead: int := bytes[0];
      if lead < 0x80 then lead
      else if lead < 0xE0 then 64 * (lead - 0xC0) + Tail(bytes, 1)
      else if lead < 0xF0 then 64 * (64 * (lead - 0xE0) + Tail(bytes, 1)) + Tail(bytes, 2)
      else 64 * (64 * (64 * (lead - 0xF0) + Tail(bytes, 1)) + Tail(bytes, 2)) + Tail(bytes, 3)
  }

  function Tail(bytes: seq<nat>, i: nat): int {
    if i < |bytes| then bytes[i] as int - 0x80 else 0
  }

  lemma Utf8HeadReads(c: char, rest: seq<nat>)
    ensures Utf8Head(Utf8(c) + rest) == c as int
  {
  }

  lemma {:induction false} Utf8IsInjective(a: string, b: string)
    requires Utf8All(a) == Utf8All(b)
    ensures a == b
  {
    if a != "" && b != "" {
      Utf8HeadReads(a[0], Utf8All(a[1..]));
      Utf8HeadReads(b[0], Utf8All(b[1..]));
      assert a[0] as int == b[0] as int;
      assert Utf8All(a[1..]) == Utf8All(a)[|Utf8(a[0])|..];
      assert Utf8All(b[1..]) == Utf8All(b)[|Utf8(b[0])|..];
      Utf8IsInjective(a[1..], b[1..]);
    } else {
      assert a == "" || |Utf8All(a)| >= 1;
      assert b == "" || |Utf8All(b)| >= 1;
    }
  }

  // ── Percent-encoding ────────────────────────────────────────────────────

  /** Section 2.3 of RFC 3986. */
  predicate Unreserved(c: char) {
    'a' <= c <= 'z' || 'A' <= c <= 'Z' || '0' <= c <= '9' || c == '-' || c == '_' || c == '.' || c == '~'
  }

  function HexDigit(n: nat): char
    requires n < 16
  {
    if n < 10 then ('0' as int + n) as char else ('A' as int + (n - 10)) as char
  }

  function Percent(b: nat): string
    requires b < 256
  {
    ['%', HexDigit(b / 16), HexDigit(b % 16)]
  }

  function PercentAll(bytes: seq<nat>): string
    requires forall i :: 0 <= i < |bytes| ==> bytes[i] < 256
  {
    if bytes == [] then "" else Percent(bytes[0]) + PercentAll(bytes[1..])
  }

  function EncodeChar(c: char): string {
    if Unreserved(c) then [c] else if c == ' ' then "%20" else PercentAll(Utf8(c))
  }

  function FlatMap(f: char -> string, s: string): string {
    if s == "" then "" else FlatMap(f, s[..|s| - 1]) + f(s[|s| - 1])
  }

  function UrlEncoded(s: string): string {
    FlatMap(EncodeChar, s)
  }

  method EncodeBytes(bytes: seq<nat>) returns (escapes: string)
    requires forall i :: 0 <= i < |bytes| ==> bytes[i] < 256
    ensures escapes == PercentAll(bytes)
  {
    escapes := "";
    for j := 0 to |bytes|
      invariant PercentAll(bytes) == escapes + PercentAll(bytes[j..])
    {
      assert bytes[j..][0] == bytes[j] && bytes[j..][1..] == bytes[j + 1..];
      escapes := escapes + Percent(bytes[j]);
    }
  }

  /** `url_encode` */
  method UrlEncode(s: string) returns (encoded: string)
    ensures encoded == UrlEncoded(s)
  {
    encoded := "";
    for i := 0 to |s|
      invariant encoded == UrlEncoded(s[..i])
    {
      assert s[..i + 1][..i] == s[..i];
      var c := s[i];
      if Unreserved(c) {
        encoded := encoded + [c];
      } else if c == ' ' {
        encoded := encoded + "%20";
      } else {
        var escapes := EncodeBytes(Utf8(c));
        encoded := encoded + escapes;
      }
    }
    assert s[..|s|] == s;
  }

  // Decoding, as section 2.1 of RFC 3986 has it.

  function HexValue(c: char): Option<nat> {
    if '0' <= c <= '9' then Some(c as int - '0' as int)
    else if 'A' <= c <= 'F' then Some(c as int - 'A' as int + 10)
    else if 'a' <= c <= 'f' then Some(c as int - 'a' as int + 10)
    else None
  }

  predicate EscapeNext(s: string) {
    3 <= |s| && s[0] == '%' && HexValue(s[1]).Some? && HexValue(s[2]).Some?
  }

  function PercentDecode(s: string): seq<nat>
    decreases |s|
  {
    if s == "" then []
    else if EscapeNext(s) then [16 * HexValue(s[1]).value + HexValue(s[2]).value] + PercentDecode(s[3..])
    else Utf8(s[0]) + PercentDecode(s[1..])
  }

  lemma DecodePercent(b: nat, rest: string)
    requires b < 256
    ensures PercentDecode(Percent(b) + rest) == [b] + PercentDecode(rest)
  {
    assert HexValue(HexDigit(b / 16)) == Some(b / 16) && HexValue(HexDigit(b % 16)) == Some(b % 16);
    assert (Percent(b) + rest)[3..] == rest;
  }

  lemma Regroup<T>(a: seq<T>, b: seq<T>, c: seq<T>)
    ensures (a + b) + c == a + (b + c)
  {
  }

  lemma {:induction false} DecodePercentAll(bytes: seq<nat>, rest: string)
    requires forall i :: 0 <= i < |bytes| ==> bytes[i] < 256
    ensures PercentDecode(PercentAll(bytes) + rest) == bytes + PercentDecode(rest)
    decreases |bytes|
  {
    if bytes == [] {
      assert PercentAll(bytes) + rest == rest && bytes + PercentDecode(rest) == PercentDecode(rest);
    } else {
      var head, tail := bytes[0], bytes[1..];
      Regroup(Percent(head), PercentAll(tail), rest);
      DecodePercent(head, PercentAll(tail) + rest);
      DecodePercentAll(tail, rest);
      Regroup([head], tail, PercentDecode(rest));
      assert [head] + tail == bytes;
    }
  }

  lemma DecodeChar(c: char, rest: string)
    ensures PercentDecode(EncodeChar(c) + rest) == Utf8(c) + PercentDecode(rest)
  {
    if Unreserved(c) {
      assert ([c] + rest)[0] == c && ([c] + rest)[1..] == rest;
    } else if c == ' ' {
      assert "%20" == Percent(0x20);
      DecodePercent(0x20, rest);
    } else {
      DecodePercentAll(Utf8(c), rest);
    }
  }

  lemma {:induction false} FlatMapDistributes(f: char -> string, a: string, b: string)
    ensures FlatMap(f, a + b) == FlatMap(f, a) + FlatMap(f, b)
  {
    if b == "" {
      assert a + b == a;
    } else {
      var init, last := b[..|b| - 1], b[|b| - 1];
      assert (a + b)[..|a + b| - 1] == a + init && (a + b)[|a + b| - 1] == last;
      FlatMapDistributes(f, a, init);
      assert FlatMap(f, a) + FlatMap(f, init) + f(last) == FlatMap(f, a) + (FlatMap(f, init) + f(last));
    }
  }

  /** Encoding distributes over concatenation. */
  lemma EncodeDistributes(a: string, b: string)
    ensures UrlEncoded(a + b) == UrlEncoded(a) + UrlEncoded(b)
  {
    FlatMapDistributes(EncodeChar, a, b);
  }

  lemma EncodeOne(c: char)
    ensures UrlEncoded([c]) == EncodeChar(c)
  {
    assert [c][..|[c]| - 1] == "" && [c][|[c]| - 1] == c;
    assert FlatMap(EncodeChar, "") == "";
  }

  /** Exactly the characters that stay as they are: ASCII letters and digits, dash, underscore, full
      stop and tilde; a blank becomes `%20`, and any other ASCII character `%` and two digits. */
  lemma KeptExactlyWhen(c: char)
    ensures UrlEncoded([c]) == [c] <==>
              'a' <= c <= 'z' || 'A' <= c <= 'Z' || '0' <= c <= '9' || c in {'-', '_', '.', '~'}
    ensures c == ' ' ==> UrlEncoded([c]) == "%20"
    ensures UrlEncoded([c]) != [c] ==> 3 <= |UrlEncoded([c])| && UrlEncoded([c])[0] == '%'
  {
    EncodeOne(c);
    if !Unreserved(c) && c != ' ' {
      assert PercentAll(Utf8(c)) == Percent(Utf8(c)[0]) + PercentAll(Utf8(c)[1..]);
    }
  }

  /** One character of each length in UTF-8: A, e acute, the euro sign, a face. */
  lemma Utf8Lengths()
    ensures Utf8('A') == [0x41] && Utf8('\U{E9}') == [0xC3, 0xA9]
    ensures Utf8('\U{20AC}') == [0xE2, 0x82, 0xAC] && Utf8('\U{1F600}') == [0xF0, 0x9F, 0x98, 0x80]
    ensures UrlEncoded("\U{E9}") == "%C3%A9"
  {
    EncodeOne('\U{E9}');
    assert Utf8('\U{E9}')[1..] == [0xA9] && [0xA9][1..] == [];
    assert Percent(0xC3) == "%C3" && Percent(0xA9) == "%A9";
    assert PercentAll([]) == "";
  }

  /** Round trip: percent-decoding the encoding gives back the UTF-8 bytes of any string. */
  lemma {:induction false} UrlRoundTrip(s: string)
    ensures PercentDecode(UrlEncoded(s)) == Utf8All(s)
    decreases |s|
  {
    if s != "" {
      assert s == [s[0]] + s[1..];
      EncodeDistributes([s[0]], s[1..]);
      EncodeOne(s[0]);
      DecodeChar(s[0], UrlEncoded(s[1..]));
      UrlRoundTrip(s[1..]);
    }
  }

  /** Different strings never encode alike. */
  lemma EncodingIsInjective(a: string, b: string)
    ensures UrlEncoded(a) == UrlEncoded(b) <==> a == b
  {
    UrlRoundTrip(a);
    UrlRoundTrip(b);
    if UrlEncoded(a) == UrlEncoded(b) {
      Utf8IsInjective(a, b);
    }
  }

  predicate UpperHex(c: char) { '0' <= c <= '9' || 'A' <= c <= 'F' }

  /** A sequence of unreserved characters and `%XX` escapes. */
  predicate UrlSafe(s: string)
    decreases |s|
  {
    s == ""
    || (Unreserved(s[0]) && UrlSafe(s[1..]))
    || (3 <= |s| && s[0] == '%' && UpperHex(s[1]) && UpperHex(s[2]) && UrlSafe(s[3..]))
  }

  lemma {:induction false} SafeConcat(a: string, b: string)
    requires UrlSafe(a) && UrlSafe(b)
    ensures UrlSafe(a + b)
    decreases |a|
  {
    if a == "" {
      assert a + b == b;
    } else if Unreserved(a[0]) && UrlSafe(a[1..]) {
      assert (a + b)[1..] == a[1..] + b;
      SafeConcat(a[1..], b);
    } else {
      assert (a + b)[3..] == a[3..] + b;
      SafeConcat(a[3..], b);
    }
  }

  lemma {:induction false} PercentIsSafe(bytes: seq<nat>)
    requires forall i :: 0 <= i < |bytes| ==> bytes[i] < 256
    ensures UrlSafe(PercentAll(bytes))
  {
    if bytes != [] {
      PercentIsSafe(bytes[1..]);
      var p := Percent(bytes[0]);
      assert p[3..] == "";
      SafeConcat(p, PercentAll(bytes[1..]));
    }
  }

  /** The output uses only unreserved characters and `%XX`. */
  lemma {:induction false} EncodingIsSafe(s: string)
    ensures UrlSafe(UrlEncoded(s))
  {
    if s != "" {
      EncodingIsSafe(s[..|s| - 1]);
      var c := s[|s| - 1];
      PercentIsSafe(Utf8(c));
      assert "%20"[3..] == "" && [c][1..] == "";
      SafeConcat(UrlEncoded(s[..|s| - 1]), EncodeChar(c));
    }
  }

  // ── Scrubbing URLs ──────────────────────────────────────────────────────

  datatype Halves = Halves(left: string, right: string)

  /** `split_once`: around the first `c`. */
  function SplitOnce(s: string, c: char): Option<Halves> {
    if s == "" then None
    else if s[0] == c then Some(Halves("", s[1..]))
    else match SplitOnce(s[1..], c)
      case Some(h) => Some(Halves([s[0]] + h.left, h.right))
      case None => None
  }

  /** `split`: the pieces of `p + s` between occurrences of `c`, `p` being the piece being read. */
  function SplitFrom(p: string, s: string, c: char): seq<string>
    decreases |s|
  {
    if s == "" then [p]
    else if s[0] == c then [p] + SplitFrom("", s[1..], c)
    else SplitFrom(p + [s[0]], s[1..], c)
  }

  const SENSITIVE := ["api_key", "apikey", "key", "token", "access_token", "secret"]

  predicate Sensitive(key: string) {
    exists i :: 0 <= i < |SENSITIVE| && EqIgnoreCase(key, SENSITIVE[i])
  }

  function Scrub(kv: string): string {
    match SplitOnce(kv, '=')
    case Some(h) => if Sensitive(h.left) then h.left + "=***" else kv
    case None => kv
  }

  function ScrubEach(params: seq<string>): seq<string> {
    seq(|params|, i requires 0 <= i < |params| => Scrub(params[i]))
  }

  function WithFragment(query: string, fragment: Option<string>): string {
    match fragment case Some(f) => query + "#" + f case None => query
  }

  /** `log_url` */
  function LogUrl(url: string): string {
    match SplitOnce(url, '?')
    case None => url
    case Some(h) =>
      var (query, fragment) := match SplitOnce(h.right, '#')
                               case Some(qf) => (qf.left, Some(qf.right))
                               case None => (h.right, None);
      h.left + "?" + WithFragment(Join(ScrubEach(SplitFrom("", query, '&')), "&"), fragment)
  }

  // The reference: a URL is a base and, after the first `?`, parameters and a fragment.

  datatype Url = Plain(base: string) | Query(base: string, params: seq<string>, fragment: Option<string>)

  function Parse(url: string): Url {
    match SplitOnce(url, '?')
    case None => Plain(url)
    case Some(h) =>
      match SplitOnce(h.right, '#')
      case Some(qf) => Query(h.left, SplitFrom("", qf.left, '&'), Some(qf.right))
      case None => Query(h.left, SplitFrom("", h.right, '&'), None)
  }

  function Print(u: Url): string {
    match u
    case Plain(base) => base
    case Query(base, params, fragment) => base + "?" + WithFragment(Join(params, "&"), fragment)
  }

  function Scrubbed(u: Url): Url {
    match u
    case Plain(_) => u
    case Query(base, params, fragment) => Query(base, ScrubEach(params), fragment)
  }

  predicate Proper(u: Url) {
    '?' !in u.base &&
    (u.Query? ==> u.params != [] && forall i :: 0 <= i < |u.params| ==> '&' !in u.params[i] && '#' !in u.params[i])
  }

  lemma {:induction false} SplitOnceSplits(s: string, c: char)
    ensures SplitOnce(s, c).None? <==> c !in s
    ensures SplitOnce(s, c).Some? ==>
              c !in SplitOnce(s, c).value.left && s == SplitOnce(s, c).value.left + [c] + SplitOnce(s, c).value.right
  {
    if s != "" {
      SplitOnceSplits(s[1..], c);
    }
  }

  lemma {:induction false} SplitOnceFinds(a: string, b: string, c: char)
    requires c !in a
    ensures SplitOnce(a + [c] + b, c) == Some(Halves(a, b))
  {
    var s := a + [c] + b;
    if a == "" {
      assert s[0] == c && s[1..] == b;
    } else {
      assert s[0] == a[0] && s[1..] == a[1..] + [c] + b;
      SplitOnceFinds(a[1..], b, c);
      assert [a[0]] + a[1..] == a;
    }
  }

  lemma {:induction false} SplitPieces(p: string, s: string, c: char, d: char)
    requires c !in p && d !in p && (d != c ==> d !in s)
    ensures SplitFrom(p, s, c) != []
    ensures forall i :: 0 <= i < |SplitFrom(p, s, c)| ==> c !in SplitFrom(p, s, c)[i] && d !in SplitFrom(p, s, c)[i]
    decreases |s|
  {
    if s != "" {
      assert d != c ==> d !in s[1..];
      if s[0] == c {
        SplitPieces("", s[1..], c, d);
      } else {
        SplitPieces(p + [s[0]], s[1..], c, d);
      }
    }
  }

  lemma {:induction false} SplitOfPiece(p: string, a: string, rest: string, c: char)
    requires c !in a
    ensures SplitFrom(p, a + [c] + rest, c) == [p + a] + SplitFrom("", rest, c)
    ensures SplitFrom(p, a, c) == [p + a]
    decreases |a|
  {
    var s := a + [c] + rest;
    if a == "" {
      assert s[0] == c && s[1..] == rest && p + a == p;
    } else {
      assert s[0] == a[0] && s[1..] == a[1..] + [c] + rest;
      assert p + [a[0]] + a[1..] == p + a;
      SplitOfPiece(p + [a[0]], a[1..], rest, c);
    }
  }

  lemma {:induction false} SplitOfJoin(parts: seq<string>, c: char)
    requires parts != [] && forall i :: 0 <= i < |parts| ==> c !in parts[i]
    ensures SplitFrom("", Join(parts, [c]), c) == parts
  {
    if |parts| == 1 {
      SplitOfPiece("", parts[0], "", c);
      assert "" + parts[0] == parts[0];
    } else {
      SplitOfPiece("", parts[0], Join(parts[1..], [c]), c);
      assert "" + parts[0] == parts[0];
      SplitOfJoin(parts[1..], c);
      assert parts == [parts[0]] + parts[1..];
    }
  }

  lemma {:induction false} JoinWithout(parts: seq<string>, c: char, d: char)
    requires c != d && forall i :: 0 <= i < |parts| ==> d !in parts[i]
    ensures d !in Join(parts, [c])
  {
    if |parts| > 1 {
      JoinWithout(parts[1..], c, d);
      assert Join(parts, [c]) == parts[0] + [c] + Join(parts[1..], [c]);
    }
  }

  /** Parsing what is printed gives the URL back. */
  lemma ParsePrint(u: Url)
    requires Proper(u)
    ensures Parse(Print(u)) == u
  {
    match u {
      case Plain(base) =>
        SplitOnceSplits(base, '?');
      case Query(base, params, fragment) =>
        var joined := Join(params, "&");
        JoinWithout(params, '&', '#');
        SplitOfJoin(params, '&');
        var right := WithFragment(joined, fragment);
        assert Print(u) == base + ['?'] + right;
        SplitOnceFinds(base, right, '?');
        match fragment {
          case Some(f) =>
            assert right == joined + ['#'] + f;
            SplitOnceFinds(joined, f, '#');
          case None =>
            SplitOnceSplits(joined, '#');
        }
    }
  }

  lemma ParseIsProper(url: string)
    ensures Proper(Parse(url))
  {
    SplitOnceSplits(url, '?');
    if SplitOnce(url, '?').Some? {
      var right := SplitOnce(url, '?').value.right;
      SplitOnceSplits(right, '#');
      var query := if SplitOnce(right, '#').Some? then SplitOnce(right, '#').value.left else right;
      SplitPieces("", query, '&', '#');
    }
  }

  lemma ScrubIsProper(kv: string)
    ensures forall d :: d !in kv && d != '=' && d != '*' ==> d !in Scrub(kv)
    ensures Scrub(Scrub(kv)) == Scrub(kv)
  {
    SplitOnceSplits(kv, '=');
    if SplitOnce(kv, '=').Some? && Sensitive(SplitOnce(kv, '=').value.left) {
      var k := SplitOnce(kv, '=').value.left;
      assert k + "=***" == k + ['='] + "***";
      SplitOnceFinds(k, "***", '=');
    }
  }

  lemma ScrubbedIsProper(u: Url)
    requires Proper(u)
    ensures Proper(Scrubbed(u))
  {
    if u.Query? {
      forall i | 0 <= i < |u.params|
        ensures '&' !in ScrubEach(u.params)[i] && '#' !in ScrubEach(u.params)[i]
      {
        ScrubIsProper(u.params[i]);
      }
    }
  }

  /** The logged URL has the same base, fragment and parameters in the same order, each parameter
      scrubbed and nothing else changed. */
  lemma LogUrlScrubsParametersOnly(url: string)
    ensures Parse(LogUrl(url)) == Scrubbed(Parse(url))
  {
    ParseIsProper(url);
    ScrubbedIsProper(Parse(url));
    assert LogUrl(url) == Print(Scrubbed(Parse(url)));
    ParsePrint(Scrubbed(Parse(url)));
  }

  /** Logging a logged URL changes nothing more. */
  lemma LogUrlIsIdempotent(url: string)
    ensures LogUrl(LogUrl(url)) == LogUrl(url)
  {
    LogUrlScrubsParametersOnly(url);
    var u := Scrubbed(Parse(url));
    assert Scrubbed(u) == u by {
      if u.Query? {
        forall i | 0 <= i < |u.params|
          ensures Scrub(u.params[i]) == u.params[i]
        {
          ScrubIsProper(Parse(url).params[i]);
        }
        assert ScrubEach(u.params) == u.params;
      }
    }
    assert LogUrl(LogUrl(url)) == Print(Scrubbed(Parse(LogUrl(url))));
  }

  /** Exactly which values are hidden: those of the six sensitive keys, in any letter case. */
  lemma HiddenExactlyWhen(base: string, key: string, value: string)
    requires '?' !in base && '=' !in key && '&' !in key + value && '#' !in key + value
    ensures LogUrl(base + ['?'] + (key + ['='] + value)) ==
              if || EqIgnoreCase(key, "api_key") || EqIgnoreCase(key, "apikey") || EqIgnoreCase(key, "key")
                 || EqIgnoreCase(key, "token") || EqIgnoreCase(key, "access_token") || EqIgnoreCase(key, "secret")
              then base + ['?'] + (key + "=***")
              else base + ['?'] + (key + ['='] + value)
  {
    var kv := key + ['='] + value;
    SplitOnceFinds(base, kv, '?');
    SplitOnceFinds(key, value, '=');
    SplitOnceSplits(kv, '#');
    SplitOfPiece("", kv, "", '&');
    assert "" + kv == kv;
    assert SplitFrom("", kv, '&') == [kv];
    SensitiveMeans(key);
    assert ScrubEach([kv]) == [Scrub(kv)];
    assert Join([Scrub(kv)], "&") == Scrub(kv);
  }

  lemma SensitiveMeans(key: string)
    ensures Sensitive(key) <==>
              || EqIgnoreCase(key, "api_key") || EqIgnoreCase(key, "apikey") || EqIgnoreCase(key, "key")
              || EqIgnoreCase(key, "token") || EqIgnoreCase(key, "access_token") || EqIgnoreCase(key, "secret")
  {
    assert SENSITIVE[0] == "api_key" && SENSITIVE[1] == "apikey" && SENSITIVE[2] == "key";
    assert SENSITIVE[3] == "token" && SENSITIVE[4] == "access_token" && SENSITIVE[5] == "secret";
  }

  /** Equal, or the same sensitive key with any two values. */
  predicate Alike(a: string, b: string) {
    || a == b
    || (&& SplitOnce(a, '=').Some? && SplitOnce(b, '=').Some?
        && SplitOnce(a, '=').value.left == SplitOnce(b, '=').value.left
        && Sensitive(SplitOnce(a, '=').value.left))
  }

  predicate DifferOnlyInSecrets(u: Url, v: Url) {
    match (u, v)
    case (Plain(a), Plain(b)) => a == b
    case (Query(a, ps, f), Query(b, qs, g)) =>
      a == b && f == g && |ps| == |qs| && forall i :: 0 <= i < |ps| ==> Alike(ps[i], qs[i])
    case _ => false
  }

  lemma ScrubHides(a: string, b: string)
    ensures Scrub(a) == Scrub(b) <==> Alike(a, b)
  {
    if Scrub(a) == Scrub(b) {
      ScrubKeepsKey(a);
      ScrubKeepsKey(b);
    }
  }

  lemma ScrubKeepsKey(kv: string)
    ensures SplitOnce(kv, '=').Some? <==> SplitOnce(Scrub(kv), '=').Some?
    ensures SplitOnce(kv, '=').Some? ==> SplitOnce(Scrub(kv), '=').value.left == SplitOnce(kv, '=').value.left
  {
    SplitOnceSplits(kv, '=');
    if SplitOnce(kv, '=').Some? {
      var k := SplitOnce(kv, '=').value.left;
      assert k + "=***" == k + ['='] + "***";
      SplitOnceFinds(k, "***", '=');
    }
  }

  /** The log tells two URLs apart exactly when they differ in something other than the values of
      sensitive parameters. */
  lemma LogUrlEqualExactlyWhen(url1: string, url2: string)
    ensures LogUrl(url1) == LogUrl(url2) <==> DifferOnlyInSecrets(Parse(url1), Parse(url2))
  {
    LogUrlScrubsParametersOnly(url1);
    LogUrlScrubsParametersOnly(url2);
    var u, v := Parse(url1), Parse(url2);
    assert LogUrl(url1) == Print(Scrubbed(u)) && LogUrl(url2) == Print(Scrubbed(v));
    if u.Query? && v.Query? && |u.params| == |v.params| {
      forall i | 0 <= i < |u.params|
        ensures ScrubEach(u.params)[i] == ScrubEach(v.params)[i] <==> Alike(u.params[i], v.params[i])
      {
        ScrubHides(u.params[i], v.params[i]);
      }
      assert ScrubEach(u.params) == ScrubEach(v.params)
        <==> forall i :: 0 <= i < |u.params| ==> ScrubEach(u.params)[i] == ScrubEach(v.params)[i];
    }
  }
}
