/** Base64 with the URL-safe alphabet and no padding (RFC 4648, section 5). */
module Base64Url {
  import opened Text

  predicate IsBytes(s: string) {
    forall i :: 0 <= i < |s| ==> s[i] as int < 256
  }

  function Symbol(v: int): char
    requires 0 <= v < 64
  {
    if v < 26 then (v + 65) as char
    else if v < 52 then (v + 71) as char
    else if v < 62 then (v - 4) as char
    else if v == 62 then '-' else '_'
  }

  function Value(c: char): int {
    if 'A' <= c <= 'Z' then c as int - 65
    else if 'a' <= c <= 'z' then c as int - 71
    else if '0' <= c <= '9' then c as int + 4
    else if c == '-' then 62
    else if c == '_' then 63
    else -1
  }

  /** The four symbols of three bytes. */
  function FullGroup(a: int, b: int, c: int): string
    requires 0 <= a < 256 && 0 <= b < 256 && 0 <= c < 256
  {
    [Symbol(a / 4), Symbol(a % 4 * 16 + b / 16), Symbol(b % 16 * 4 + c / 64), Symbol(c % 64)]
  }

  function Encode(s: string): string
    requires IsBytes(s)
  {
    if |s| == 0 then ""
    else
      var a := s[0] as int;
      if |s| == 1 then [Symbol(a / 4), Symbol(a % 4 * 16)]
      else
        var b := s[1] as int;
        if |s| == 2 then [Symbol(a / 4), Symbol(a % 4 * 16 + b / 16), Symbol(b % 16 * 4)]
        else
          FullGroup(a, b, s[2] as int) + Encode(s[3..])
  }

  /** The decoder skips line breaks wherever they stand. */
  function SkipBreaks(t: string): string {
    if t == "" then ""
    else (if t[0] == '\n' || t[0] == '\r' then "" else [t[0]]) + SkipBreaks(t[1..])
  }

  function DecodeGroups(t: string): Option<string> {
    if |t| == 0 then Some("")
    else if |t| == 1 || Value(t[0]) < 0 || Value(t[1]) < 0 then None
    else
      var x := (Value(t[0]) * 4 + Value(t[1]) / 16) as char;
      if |t| == 2 then Some([x])
      else if Value(t[2]) < 0 then None
      else
        var y := (Value(t[1]) % 16 * 16 + Value(t[2]) / 4) as char;
        if |t| == 3 then Some([x, y])
        else if Value(t[3]) < 0 then None
        else
          var z := (Value(t[2]) % 4 * 64 + Value(t[3])) as char;
          match DecodeGroups(t[4..])
          case None => None
          case Some(rest) => Some([x, y, z] + rest)
  }

  function Decode(t: string): Option<string> {
    DecodeGroups(SkipBreaks(t))
  }

  predicate InAlphabet(t: string) {
    forall i :: 0 <= i < |t| ==> Value(t[i]) >= 0
  }

  lemma {:induction false} SymbolRoundTrip(v: int)
    requires 0 <= v < 64
    ensures Value(Symbol(v)) == v
  {
  }

  lemma {:induction false} InAlphabetConcat(x: string, y: string)
    requires InAlphabet(x) && InAlphabet(y)
    ensures InAlphabet(x + y)
  {
  }

  lemma {:induction false} FullGroupInAlphabet(a: int, b: int, c: int)
    requires 0 <= a < 256 && 0 <= b < 256 && 0 <= c < 256
    ensures InAlphabet(FullGroup(a, b, c))
  {
    SymbolRoundTrip(a / 4);
    SymbolRoundTrip(a % 4 * 16 + b / 16);
    SymbolRoundTrip(b % 16 * 4 + c / 64);
    SymbolRoundTrip(c % 64);
  }

  lemma {:induction false} ShortInAlphabet(s: string)
    requires IsBytes(s) && |s| <= 2
    ensures InAlphabet(Encode(s))
    ensures Encode(s) == "" <==> s == ""
  {
    if |s| > 0 {
      var a := s[0] as int;
      var b := if |s| == 2 then s[1] as int else 0;
      SymbolRoundTrip(a / 4);
      SymbolRoundTrip(a % 4 * 16 + b / 16);
      SymbolRoundTrip(b % 16 * 4);
    }
  }

  lemma {:induction false} EncodeInAlphabet(s: string)
    requires IsBytes(s)
    ensures InAlphabet(Encode(s))
    ensures Encode(s) == "" <==> s == ""
  {
    if |s| < 3 {
      ShortInAlphabet(s);
    } else {
      EncodeInAlphabet(s[3..]);
      FullGroupInAlphabet(s[0] as int, s[1] as int, s[2] as int);
      InAlphabetConcat(FullGroup(s[0] as int, s[1] as int, s[2] as int), Encode(s[3..]));
    }
  }

  /** Encoded text never contains a key delimiter. */
  lemma {:induction false} EncodeLacksBar(s: string)
    requires IsBytes(s)
    ensures Lacks(Encode(s), '|')
  {
    EncodeInAlphabet(s);
  }

  lemma {:induction false} NoBreaksToSkip(t: string)
    requires InAlphabet(t)
    ensures SkipBreaks(t) == t
  {
    if t != "" {
      NoBreaksToSkip(t[1..]);
    }
  }

  lemma {:induction false} Regroup(a: int, b: int, c: int)
    requires 0 <= a < 256 && 0 <= b < 256 && 0 <= c < 256
    ensures a / 4 * 4 + (a % 4 * 16 + b / 16) / 16 == a
    ensures (a % 4 * 16 + b / 16) % 16 * 16 + (b % 16 * 4 + c / 64) / 4 == b
    ensures (b % 16 * 4 + c / 64) % 4 * 64 + c % 64 == c
  {
  }

  lemma {:induction false} ShortRoundTrip(s: string)
    requires IsBytes(s) && |s| <= 2
    ensures DecodeGroups(Encode(s)) == Some(s)
  {
    if |s| > 0 {
      var a := s[0] as int;
      var b := if |s| == 2 then s[1] as int else 0;
      SymbolRoundTrip(a / 4);
      SymbolRoundTrip(a % 4 * 16 + b / 16);
      SymbolRoundTrip(b % 16 * 4);
      Regroup(a, b, 0);
      assert s == if |s| == 1 then [s[0]] else [s[0], s[1]];
    }
  }

  /** The symbol values of one full group. */
  lemma {:induction false} FullGroupValues(a: int, b: int, c: int)
    requires 0 <= a < 256 && 0 <= b < 256 && 0 <= c < 256
    ensures var g := FullGroup(a, b, c);
            && Value(g[0]) == a / 4 && Value(g[1]) == a % 4 * 16 + b / 16
            && Value(g[2]) == b % 16 * 4 + c / 64 && Value(g[3]) == c % 64
  {
    SymbolRoundTrip(a / 4);
    SymbolRoundTrip(a % 4 * 16 + b / 16);
    SymbolRoundTrip(b % 16 * 4 + c / 64);
    SymbolRoundTrip(c % 64);
  }

  lemma {:induction false} DecodeFullGroup(a: char, b: char, c: char, t: string, rest: string)
    requires a as int < 256 && b as int < 256 && c as int < 256 && DecodeGroups(t) == Some(rest)
    ensures DecodeGroups(FullGroup(a as int, b as int, c as int) + t) == Some([a, b, c] + rest)
  {
    FullGroupValues(a as int, b as int, c as int);
    Regroup(a as int, b as int, c as int);
    assert (FullGroup(a as int, b as int, c as int) + t)[4..] == t;
  }

  /** Three bytes more in front are four symbols more in front. */
  lemma {:induction false} OneGroupMore(a: char, b: char, c: char, tail: string)
    requires IsBytes([a, b, c]) && IsBytes(tail) && DecodeGroups(Encode(tail)) == Some(tail)
    ensures IsBytes([a, b, c] + tail) && DecodeGroups(Encode([a, b, c] + tail)) == Some([a, b, c] + tail)
  {
    var s := [a, b, c] + tail;
    assert [a, b, c][0] == a && [a, b, c][1] == b && [a, b, c][2] == c;
    DecodeFullGroup(a, b, c, Encode(tail), tail);
    assert s[3..] == tail;
    assert Encode(s) == FullGroup(a as int, b as int, c as int) + Encode(tail);
  }

  lemma {:induction false} GroupsRoundTrip(s: string)
    requires IsBytes(s)
    ensures DecodeGroups(Encode(s)) == Some(s)
    decreases |s|
  {
    if |s| < 3 {
      ShortRoundTrip(s);
    } else {
      var head, tail := s[..3], s[3..];
      GroupsRoundTrip(tail);
      assert s == head + tail && head == [head[0], head[1], head[2]];
      OneGroupMore(head[0], head[1], head[2], tail);
    }
  }

  /** Decoding undoes encoding for every byte string. */
  lemma {:induction false} RoundTrip(s: string)
    requires IsBytes(s)
    ensures Decode(Encode(s)) == Some(s)
  {
    EncodeInAlphabet(s);
    NoBreaksToSkip(Encode(s));
    GroupsRoundTrip(s);
  }

  /** A test vector of RFC 4648, section 10. */
  lemma {:induction false} KnownVector()
    ensures IsBytes("foo") && Encode("foo") == "Zm9v"
  {
    assert FullGroup(102, 111, 111) == ['Z', 'm', '9', 'v'];
    assert "foo"[3..] == "";
  }

  /** The two symbols in which this alphabet differs from the usual one. */
  lemma {:induction false} UrlSafeSymbols(v: int)
    requires 0 <= v < 64
    ensures Symbol(v) == '-' <==> v == 62
    ensures Symbol(v) == '_' <==> v == 63
  {
  }
}
