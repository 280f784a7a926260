/** The standard base64 alphabet with padding (section 4 of RFC 4648), as Go's
    `base64.StdEncoding` encodes and decodes it. Decoding skips carriage returns and
    line feeds, requires padding, accepts padding only in the final quantum and, like
    Go's non-strict mode, ignores the unused low bits of a padded quantum. */
module Base64 {
  import opened Base

  predicate IsByte(b: int) {
    0 <= b < 256
  }

  predicate AllBytes(bs: seq<int>) {
    forall i | 0 <= i < |bs| :: IsByte(bs[i])
  }

  /** The value of an alphabet symbol. */
  function SymbolValue(c: char): Option<nat> {
    if 'A' <= c <= 'Z' then Some(c as int - 'A' as int)
    else if 'a' <= c <= 'z' then Some(c as int - 'a' as int + 26)
    else if '0' <= c <= '9' then Some(c as int - '0' as int + 52)
    else if c == '+' then Some(62)
    else if c == '/' then Some(63)
    else None
  }

  /** The symbol for a six-bit value. */
  function Symbol(n: nat): (c: char)
    requires n < 64
    ensures SymbolValue(c) == Some(n) && c != '='
  {
    if n < 26 then ('A' as int + n) as char
    else if n < 52 then ('a' as int + n - 26) as char
    else if n < 62 then ('0' as int + n - 52) as char
    else if n == 62 then '+'
    else '/'
  }

  /** `EncodeToString`: every three bytes become four symbols, a short final group is padded. */
  function Encode(bs: seq<int>): (s: string)
    requires AllBytes(bs)
    ensures |s| % 4 == 0
    ensures |bs| > 0 <==> |s| > 0
    decreases |bs|
  {
    if |bs| == 0 then ""
    else if |bs| == 1 then [Symbol(bs[0] / 4), Symbol((bs[0] % 4) * 16), '=', '=']
    else if |bs| == 2 then
      [Symbol(bs[0] / 4), Symbol((bs[0] % 4) * 16 + bs[1] / 16), Symbol((bs[1] % 16) * 4), '=']
    else
      [Symbol(bs[0] / 4), Symbol((bs[0] % 4) * 16 + bs[1] / 16),
       Symbol((bs[1] % 16) * 4 + bs[2] / 64), Symbol(bs[2] % 64)] + Encode(bs[3..])
  }

  /** The input with every carriage return and line feed removed. */
  function StripNewlines(s: string): (t: string)
    ensures |t| <= |s|
    ensures forall i | 0 <= i < |t| :: t[i] != '\r' && t[i] != '\n'
    decreases |s|
  {
    if |s| == 0 then ""
    else (if s[0] == '\r' || s[0] == '\n' then "" else [s[0]]) + StripNewlines(s[1..])
  }

  /** Decodes whole quanta; padding ends the input. */
  function DecodeQuanta(t: string): (r: Option<seq<int>>)
    ensures r.Some? ==> AllBytes(r.value)
    decreases |t|
  {
    if |t| == 0 then Some([])
    else if |t| < 4 then None
    else match (SymbolValue(t[0]), SymbolValue(t[1]))
      case (Some(a), Some(b)) =>
        if t[2] == '=' then
          if t[3] == '=' && |t| == 4 then Some([a * 4 + b / 16]) else None
        else (match SymbolValue(t[2])
          case None => None
          case Some(c) =>
            if t[3] == '=' then
              if |t| == 4 then Some([a * 4 + b / 16, (b % 16) * 16 + c / 4]) else None
            else match SymbolValue(t[3])
              case None => None
              case Some(d) =>
                match DecodeQuanta(t[4..])
                case None => None
                case Some(rest) => Some([a * 4 + b / 16, (b % 16) * 16 + c / 4, (c % 4) * 64 + d] + rest))
      case _ => None
  }

  /** `DecodeString`. */
  function Decode(s: string): (r: Option<seq<int>>)
    ensures r.Some? ==> AllBytes(r.value)
  {
    DecodeQuanta(StripNewlines(s))
  }

  lemma StripNoNewlines(s: string)
    requires forall i | 0 <= i < |s| :: s[i] != '\r' && s[i] != '\n'
    ensures StripNewlines(s) == s
  {
    if |s| > 0 {
      StripNoNewlines(s[1..]);
      assert [s[0]] + s[1..] == s;
    }
  }

  lemma {:induction false} EncodeAlphabet(bs: seq<int>)
    requires AllBytes(bs)
    ensures forall i | 0 <= i < |Encode(bs)| :: Encode(bs)[i] != '\r' && Encode(bs)[i] != '\n'
    decreases |bs|
  {
    if |bs| >= 3 {
      EncodeAlphabet(bs[3..]);
    }
  }

  /** The arithmetic of one full quantum. */
  lemma FullQuantum(b0: int, b1: int, b2: int)
    requires IsByte(b0) && IsByte(b1) && IsByte(b2)
    ensures var a, b, c, d := b0 / 4, (b0 % 4) * 16 + b1 / 16, (b1 % 16) * 4 + b2 / 64, b2 % 64;
      && b < 64 && c < 64
      && a * 4 + b / 16 == b0 && (b % 16) * 16 + c / 4 == b1 && (c % 4) * 64 + d == b2
  {
    var b := (b0 % 4) * 16 + b1 / 16;
    var c := (b1 % 16) * 4 + b2 / 64;
    assert b / 16 == b0 % 4 && b % 16 == b1 / 16;
    assert c / 4 == b1 % 16 && c % 4 == b2 / 64;
  }

  lemma {:induction false} DecodeQuantaEncode(bs: seq<int>)
    requires AllBytes(bs)
    ensures DecodeQuanta(Encode(bs)) == Some(bs)
    decreases |bs|
  {
    var s := Encode(bs);
    if |bs| == 1 {
      var b := (bs[0] % 4) * 16;
      assert b / 16 == bs[0] % 4;
      assert [bs[0]] == bs;
    } else if |bs| == 2 {
      var b := (bs[0] % 4) * 16 + bs[1] / 16;
      var c := (bs[1] % 16) * 4;
      assert b / 16 == bs[0] % 4 && b % 16 == bs[1] / 16 && c / 4 == bs[1] % 16;
      assert [bs[0], bs[1]] == bs;
    } else if |bs| >= 3 {
      FullQuantum(bs[0], bs[1], bs[2]);
      DecodeQuantaEncode(bs[3..]);
      assert s[4..] == Encode(bs[3..]);
      assert [bs[0], bs[1], bs[2]] + bs[3..] == bs;
    }
  }

  /** Decoding undoes encoding. */
  lemma DecodeEncode(bs: seq<int>)
    requires AllBytes(bs)
    ensures Decode(Encode(bs)) == Some(bs)
  {
    EncodeAlphabet(bs);
    StripNoNewlines(Encode(bs));
    DecodeQuantaEncode(bs);
  }

  /** Line breaks anywhere in the input are ignored. */
  lemma NewlinesIgnored(s: string, t: string)
    ensures Decode(s + "\n" + t) == Decode(s + t)
  {
    var u := "\n" + t;
    assert s + "\n" + t == s + u;
    assert u[0] == '\n' && u[1..] == t;
    assert StripNewlines(u) == "" + StripNewlines(t) == StripNewlines(t);
    StripAppend(s, u);
    StripAppend(s, t);
    assert StripNewlines(s + "\n" + t) == StripNewlines(s + t);
  }

  lemma {:induction false} StripAppend(s: string, t: string)
    ensures StripNewlines(s + t) == StripNewlines(s) + StripNewlines(t)
    decreases |s|
  {
    if |s| == 0 {
      assert s + t == t;
    } else {
      assert (s + t)[0] == s[0] && (s + t)[1..] == s[1..] + t;
      StripAppend(s[1..], t);
    }
  }
}
