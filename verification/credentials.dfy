/** Random strings, the AJAX security token SEC and `atob` (utils.go, and `genSec` in
    http.go and aternos_api.go, which are the same code).

    `math/rand` is the oracle `rng`: `rng(k)` is the result of the `k`-th call to
    `rand.Intn(36)`, and callers say which call comes next. */
module Credentials {
  import opened Base
  import opened Strings
  import Base64

  /** The 36 symbols `randomString` draws from. */
  const Charset := "abcdefghijklmnopqrstuvwxyz0123456789"

  /** A result of `rand.Intn(36)`. */
  type Draw = i: int | 0 <= i < 36

  type Rng = nat -> Draw

  predicate InCharset(c: char) {
    'a' <= c <= 'z' || '0' <= c <= '9'
  }

  /** The position of a symbol in `Charset`. */
  function CharsetIndex(c: char): Option<nat> {
    if 'a' <= c <= 'z' then Some(c as int - 'a' as int)
    else if '0' <= c <= '9' then Some(c as int - '0' as int + 26)
    else None
  }

  lemma CharsetIndexOf(i: nat)
    requires i < 36
    ensures InCharset(Charset[i]) && CharsetIndex(Charset[i]) == Some(i)
  {
  }

  /** `randomString(n)` using the draws `from`, `from + 1`, ... */
  function RandomString(n: nat, rng: Rng, from: nat): (s: string)
    ensures |s| == n
    ensures forall i | 0 <= i < n :: InCharset(s[i]) && CharsetIndex(s[i]) == Some(rng(from + i))
  {
    var s := seq(n, i requires 0 <= i < n => Charset[rng(from + i)]);
    assert forall i | 0 <= i < n :: s[i] == Charset[rng(from + i)];
    forall i | 0 <= i < n
      ensures InCharset(s[i]) && CharsetIndex(s[i]) == Some(rng(from + i))
    {
      CharsetIndexOf(rng(from + i));
    }
    s
  }

  /** Two runs give the same string exactly when they drew the same indices. */
  lemma RandomStringInjective(n: nat, rng1: Rng, rng2: Rng, from: nat)
    ensures RandomString(n, rng1, from) == RandomString(n, rng2, from)
      <==> forall k | from <= k < from + n :: rng1(k) == rng2(k)
  {
    var s1, s2 := RandomString(n, rng1, from), RandomString(n, rng2, from);
    if s1 == s2 {
      forall k | from <= k < from + n
        ensures rng1(k) == rng2(k)
      {
        assert CharsetIndex(s1[k - from]) == CharsetIndex(s2[k - from]);
      }
    } else {
      var i :| 0 <= i < n && s1[i] != s2[i];
      assert CharsetIndex(s1[i]) == Some(rng1(from + i));
      assert CharsetIndex(s2[i]) == Some(rng2(from + i));
    }
  }

  /** An HTTP cookie as placed in the cookie jar. */
  datatype Cookie = Cookie(name: string, value: string)

  /** What `genSec` produces: the new `sec` and the cookie it registers. */
  datatype Minted = Minted(sec: string, cookie: Cookie)

  /** The random draws one `genSec` consumes. */
  const SecDraws := 22

  const SecPadding := "00000"
  const SecCookiePrefix := "ATERNOS_SEC_"

  /** `genSec`: key and value are eleven random symbols followed by five zeros. */
  function GenSec(rng: Rng, from: nat): (r: Minted)
    ensures |r.sec| == 33 && r.sec[16] == ':'
    ensures forall i | 0 <= i < 33 && i != 16 :: InCharset(r.sec[i])
    ensures r.sec[11..16] == SecPadding && r.sec[28..] == SecPadding
    ensures forall i | 0 <= i < 11 :: CharsetIndex(r.sec[i]) == Some(rng(from + i))
    ensures forall i | 17 <= i < 28 :: CharsetIndex(r.sec[i]) == Some(rng(from + i - 6))
    ensures r.cookie == Cookie(SecCookiePrefix + r.sec[..16], r.sec[17..])
  {
    var key := RandomString(11, rng, from) + SecPadding;
    var value := RandomString(11, rng, from + 11) + SecPadding;
    var sec := key + ":" + value;
    assert sec[..16] == key && sec[17..] == value;
    assert sec[11..16] == key[11..] == SecPadding;
    Minted(sec, Cookie(SecCookiePrefix + key, value))
  }

  /** The cookie can be recovered from `sec` alone: split it at its only colon. */
  lemma GenSecSplit(rng: Rng, from: nat)
    ensures var r := GenSec(rng, from);
      match SplitOnce(r.sec, ':')
      case Some((key, value)) => r.cookie == Cookie(SecCookiePrefix + key, value)
      case None => false
  {
    var r := GenSec(rng, from);
    var key, value := r.sec[..16], r.sec[17..];
    assert forall i | 0 <= i < 16 :: key[i] == r.sec[i];
    assert ':' !in key;
    assert r.sec == key + [':'] + value;
    SplitOnceJoin(key, ':', value);
  }

  /** `atob`: base64 decoding, with `NotBase64` as the error when the input is not base64. */
  function Atob(encoded: string): (r: Result<seq<int>>)
    ensures r.Err? ==> r.error == NotBase64
    ensures r.Ok? ==> Base64.AllBytes(r.value)
  {
    match Base64.Decode(encoded)
    case None => Err(NotBase64)
    case Some(b) => Ok(b)
  }

  /** `atob` hands back whatever was base64-encoded. */
  lemma AtobEncode(bytes: seq<int>)
    requires Base64.AllBytes(bytes)
    ensures Atob(Base64.Encode(bytes)) == Ok(bytes)
  {
    Base64.DecodeEncode(bytes);
  }
}
