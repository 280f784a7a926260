/** JSON values (RFC 8259) and the string quoting `encoding/json` applies.

    Quoting is written out, so that the wire form of a string payload can be
    reasoned about; parsing a whole document and serialising a decoded object
    are left to `encoding/json`, given here as the oracle `JsonLib`. */
module Json {
  import opened Base
  import opened Strings

  /** The values `encoding/json` decodes into `interface{}`. A number is held as the text
      `json.Marshal` writes for the `float64` it decodes to, so `1.0` and `1` are one value. */
  datatype Json =
    | Null
    | Bool(b: bool)
    | Number(text: string)
    | Str(s: string)
    | Array(items: seq<Json>)
    | Object(members: map<string, Json>)

  /** Lower-case hexadecimal digit, as `encoding/json` writes it. */
  function HexDigit(n: nat): (c: char)
    requires n < 16
    ensures HexValue(c) == Some(n)
  {
    if n < 10 then ('0' as int + n) as char else ('a' as int + n - 10) as char
  }

  /** Value of a hexadecimal digit of either case (section 7 of RFC 8259). */
  function HexValue(c: char): Option<nat> {
    if '0' <= c <= '9' then Some(c as int - '0' as int)
    else if 'a' <= c <= 'f' then Some(c as int - 'a' as int + 10)
    else if 'A' <= c <= 'F' then Some(c as int - 'A' as int + 10)
    else None
  }

  function Hex4(n: nat): (h: string)
    requires n < 0x10000
    ensures |h| == 4
  {
    var q1 := n / 16;
    var q2 := q1 / 16;
    [HexDigit(q2 / 16), HexDigit(q2 % 16), HexDigit(q1 % 16), HexDigit(n % 16)]
  }

  function ParseHex4(t: string): (r: Option<nat>)
    requires |t| == 4
    ensures r.Some? ==> r.value < 0x10000
  {
    match (HexValue(t[0]), HexValue(t[1]), HexValue(t[2]), HexValue(t[3]))
    case (Some(a), Some(b), Some(c), Some(d)) =>
      if a < 16 && b < 16 && c < 16 && d < 16 then Some(((a * 16 + b) * 16 + c) * 16 + d) else None
    case _ => None
  }

  lemma Hex4RoundTrip(n: nat)
    requires n < 0x10000
    ensures ParseHex4(Hex4(n)) == Some(n)
  {
    var q1 := n / 16;
    var q2 := q1 / 16;
    assert n == q1 * 16 + n % 16;
    assert q1 == q2 * 16 + q1 % 16;
    assert q2 == (q2 / 16) * 16 + q2 % 16;
  }

  /** Characters `encoding/json` copies into a string literal unchanged (HTML escaping on). */
  predicate Plain(c: char) {
    ' ' <= c && c != '"' && c != '\\' && c != '<' && c != '>' && c != '&'
    && c != '\U{2028}' && c != '\U{2029}'
  }

  /** The escape `encoding/json` writes for one character of a string. */
  function EscapeChar(c: char): (e: string)
    ensures Plain(c) <==> e == [c]
    ensures |e| > 0 && (e[0] == '\\' || e == [c])
  {
    if c == '"' then "\\\""
    else if c == '\\' then "\\\\"
    else if c == '\n' then "\\n"
    else if c == '\r' then "\\r"
    else if c == '\t' then "\\t"
    else if !Plain(c) then "\\u" + Hex4(c as int)
    else [c]
  }

  function Escape(s: string): string {
    if |s| == 0 then "" else EscapeChar(s[0]) + Escape(s[1..])
  }

  /** `json.Marshal` of a Go string: the escaped text between quotation marks. */
  function Quote(s: string): (q: string)
    ensures |q| >= 2 && q[0] == '"' && q[|q| - 1] == '"'
  {
    "\"" + Escape(s) + "\""
  }

  /** The character a two-character escape `\c` stands for. */
  function Unescaped(c: char): Option<char> {
    if c == '"' then Some('"')
    else if c == '\\' then Some('\\')
    else if c == '/' then Some('/')
    else if c == 'b' then Some('\U{8}')
    else if c == 'f' then Some('\U{C}')
    else if c == 'n' then Some('\n')
    else if c == 'r' then Some('\r')
    else if c == 't' then Some('\t')
    else None
  }

  function Cons(c: char, r: Option<string>): Option<string> {
    match r
    case None => None
    case Some(s) => Some([c] + s)
  }

  /** Decodes the body of a JSON string literal. `None` for text a decoder rejects, and
      also for `\u` escapes of surrogates, whose pairing this model does not decode. */
  function Unescape(t: string): Option<string>
    decreases |t|
  {
    if |t| == 0 then Some("")
    else if t[0] == '"' || t[0] < ' ' then None
    else if t[0] != '\\' then Cons(t[0], Unescape(t[1..]))
    else if |t| < 2 then None
    else if t[1] == 'u' then
      if |t| < 6 then None
      else match ParseHex4(t[2..6])
        case None => None
        case Some(v) => if 0xD800 <= v < 0xE000 then None else Cons(v as char, Unescape(t[6..]))
    else match Unescaped(t[1])
      case None => None
      case Some(c) => Cons(c, Unescape(t[2..]))
  }

  /** The string a JSON string literal denotes, if `q` is one this model can decode. */
  function Unquote(q: string): Option<string> {
    if |q| >= 2 && q[0] == '"' && q[|q| - 1] == '"' then Unescape(q[1..|q| - 1]) else None
  }

  lemma UnescapeStep(c: char, rest: string)
    ensures Unescape(EscapeChar(c) + rest) == Cons(c, Unescape(rest))
  {
    var t := EscapeChar(c) + rest;
    if Plain(c) {
      assert t[0] == c && t[1..] == rest;
    } else if c == '"' || c == '\\' || c == '\n' || c == '\r' || c == '\t' {
      assert t[0] == '\\' && t[2..] == rest;
    } else {
      var h := Hex4(c as int);
      assert t == "\\u" + h + rest;
      assert t[2..6] == h && t[6..] == rest;
      Hex4RoundTrip(c as int);
    }
  }

  lemma {:induction false} UnescapeEscape(s: string)
    ensures Unescape(Escape(s)) == Some(s)
    decreases |s|
  {
    if |s| > 0 {
      UnescapeEscape(s[1..]);
      UnescapeStep(s[0], Escape(s[1..]));
      assert [s[0]] + s[1..] == s;
    }
  }

  /** Quoting is undone by unquoting: the JSON string encoding loses nothing. */
  lemma QuoteRoundTrip(s: string)
    ensures Unquote(Quote(s)) == Some(s)
  {
    var q := Quote(s);
    assert q[1..|q| - 1] == Escape(s);
    UnescapeEscape(s);
  }

  /** A string of plain characters is quoted without any escape. */
  lemma {:induction false} EscapePlain(s: string)
    requires forall i | 0 <= i < |s| :: Plain(s[i])
    ensures Escape(s) == s
    decreases |s|
  {
    if |s| > 0 {
      EscapePlain(s[1..]);
      assert [s[0]] + s[1..] == s;
    }
  }

  /** `encoding/json`, seen from the modelled code: `parse` is `json.Unmarshal` into
      `interface{}` (`None` on a syntax error) and `marshal` is `json.Marshal` of a
      decoded `map[string]interface{}`. */
  datatype JsonLib = JsonLib(parse: string -> Option<Json>, marshal: map<string, Json> -> string)

  /** What the modelled code relies on `encoding/json` to do: decode quoted strings as
      `Unquote` does, re-decode to the same object any object it decoded and then serialised,
      write objects with a leading `{`, and decode a document that begins with `{` to nothing
      but an object. */
  ghost predicate WellBehaved(lib: JsonLib) {
    && (forall t :: Unquote(t).Some? ==> lib.parse(t) == Some(Str(Unquote(t).value)))
    && (forall t | lib.parse(t).Some? && lib.parse(t).value.Object? ::
          lib.parse(lib.marshal(lib.parse(t).value.members)) == lib.parse(t))
    && (forall m :: HasPrefix(lib.marshal(m), "{"))
    && (forall t :: HasPrefix(t, "{") && lib.parse(t).Some? ==> lib.parse(t).value.Object?)
  }

  /** Case folding as `encoding/json` applies it to object keys, for the characters that
      fold onto an ASCII letter: a lower-case ASCII letter goes to upper case, and the long s
      (U+017F) and the Kelvin sign (U+212A) go to `S` and `K`. Every other character folds
      onto a character outside ASCII or onto itself, so leaving it as it is decides the same
      matches against an ASCII tag. */
  function FoldChar(c: char): (f: char)
    ensures !('a' <= f <= 'z')
  {
    if 'a' <= c <= 'z' then (c as int - 32) as char
    else if c == '\U{17F}' then 'S'
    else if c == '\U{212A}' then 'K'
    else c
  }

  function Fold(s: string): (f: string)
    ensures |f| == |s| && forall i | 0 <= i < |s| :: f[i] == FoldChar(s[i])
  {
    seq(|s|, i requires 0 <= i < |s| => FoldChar(s[i]))
  }

  /** The characters that fold onto the same character as `c`, in a fixed order. */
  function CharVariants(c: char): (vs: seq<char>)
    ensures forall d :: d in vs <==> FoldChar(d) == FoldChar(c)
  {
    var f := FoldChar(c);
    if 'A' <= f <= 'Z' then
      [f, (f as int + 32) as char]
        + (if f == 'S' then ['\U{17F}'] else [])
        + (if f == 'K' then ['\U{212A}'] else [])
    else [c]
  }

  /** `k` is `pre` followed by a string that folds onto `rest`. */
  predicate Matches(k: string, pre: string, rest: string) {
    |k| == |pre| + |rest| && k[..|pre|] == pre && Fold(k[|pre|..]) == Fold(rest)
  }

  lemma MatchesStep(k: string, pre: string, rest: string)
    requires |rest| > 0
    ensures Matches(k, pre, rest) <==>
      |k| > |pre| && FoldChar(k[|pre|]) == FoldChar(rest[0]) && Matches(k, pre + [k[|pre|]], rest[1..])
  {
    if |k| > |pre| {
      assert k[..|pre| + 1] == k[..|pre|] + [k[|pre|]];
      assert k[|pre|..] == [k[|pre|]] + k[|pre| + 1..];
      assert rest == [rest[0]] + rest[1..];
      assert Fold(k[|pre|..]) == [FoldChar(k[|pre|])] + Fold(k[|pre| + 1..]);
      assert Fold(rest) == [FoldChar(rest[0])] + Fold(rest[1..]);
    }
  }

  /** The first key of `m` that is `pre` followed by a string folding onto `rest`, trying
      the characters of each position in the order `CharVariants` lists them. */
  function Search(m: map<string, Json>, pre: string, rest: string): (r: Option<string>)
    ensures r.Some? ==> r.value in m && Matches(r.value, pre, rest)
    ensures r.None? ==> forall k | k in m :: !Matches(k, pre, rest)
    decreases |rest|, 1, 0
  {
    if |rest| == 0 then
      assert forall k | Matches(k, pre, rest) :: k == pre by {
        forall k | Matches(k, pre, rest) ensures k == pre { assert k == k[..|pre|]; }
      }
      if pre in m then Some(pre) else None
    else
      var r := SearchFrom(m, pre, rest, CharVariants(rest[0]));
      assert r.None? ==> forall k | k in m :: !Matches(k, pre, rest) by {
        forall k | k in m ensures r.None? ==> !Matches(k, pre, rest) { MatchesStep(k, pre, rest); }
      }
      r
  }

  /** `Search` restricted to the keys whose character after `pre` is one of `cs`. */
  function SearchFrom(m: map<string, Json>, pre: string, rest: string, cs: seq<char>): (r: Option<string>)
    requires |rest| > 0 && forall c | c in cs :: FoldChar(c) == FoldChar(rest[0])
    ensures r.Some? ==> r.value in m && Matches(r.value, pre, rest)
    ensures r.None? ==> forall k | k in m && Matches(k, pre, rest) :: k[|pre|] !in cs
    decreases |rest|, 0, |cs|
  {
    if |cs| == 0 then None
    else match Search(m, pre + [cs[0]], rest[1..])
      case Some(k) =>
        assert k[..|pre| + 1][..|pre|] == k[..|pre|];
        MatchesStep(k, pre, rest);
        Some(k)
      case None =>
        var r := SearchFrom(m, pre, rest, cs[1..]);
        assert r.None? ==> forall k | k in m && Matches(k, pre, rest) :: k[|pre|] !in cs by {
          forall k | k in m && Matches(k, pre, rest) ensures r.None? ==> k[|pre|] !in cs {
            MatchesStep(k, pre, rest);
          }
        }
        r
  }

  /** The value an object gives the struct field tagged `tag`: the key equal to the tag, or
      else a key equal to it under case folding; `None` when there is no such key. */
  function FieldValue(m: map<string, Json>, tag: string): (r: Option<Json>)
    ensures tag in m ==> r == Some(m[tag])
    ensures r.None? <==> forall k | k in m :: Fold(k) != Fold(tag)
    ensures r.Some? ==> exists k | k in m :: Fold(k) == Fold(tag) && m[k] == r.value
  {
    assert forall k :: Matches(k, "", tag) <==> Fold(k) == Fold(tag) by {
      forall k ensures Matches(k, "", tag) <==> Fold(k) == Fold(tag) {
        assert k[|""|..] == k;
      }
    }
    if tag in m then Some(m[tag])
    else match Search(m, "", tag)
      case Some(k) => Some(m[k])
      case None => None
  }

  /** When one key of the object folds onto the tag, the field takes its value whatever
      the key's case. */
  lemma FieldValueFolded(m: map<string, Json>, tag: string, k: string)
    requires k in m && Fold(k) == Fold(tag)
    requires forall k' | k' in m && Fold(k') == Fold(tag) :: k' == k
    ensures FieldValue(m, tag) == Some(m[k])
  {
  }
}
