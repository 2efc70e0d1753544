/**
 Cache keys: built from method, host, URI and digests of the varied request
 headers, and parsed back by purge and invalidation.

 Host and URI arrive in canonical form. `digest` stands for the hexadecimal
 SHA-256 of a byte string; nothing is assumed of it beyond the shape of its
 output, and collisions are ruled out only for the two requests compared.
 */
module CacheKey {
  import opened Text
  import opened Base64Url
  import opened LruCache

  /** Header fields are indexed by lower-case name. */
  datatype Request = Request(verb: string, host: string, uri: string, headers: map<string, seq<string>>)

  datatype Config = Config(varyHeaders: seq<string>, authorized: bool, cookies: bool)

  predicate IsHex(c: char) {
    '0' <= c <= '9' || 'a' <= c <= 'f'
  }

  ghost predicate Hexadecimal(digest: string -> string) {
    forall s :: |digest(s)| == 64 && forall i :: 0 <= i < 64 ==> IsHex(digest(s)[i])
  }

  predicate Canonical(r: Request) {
    IsBytes(r.host) && IsBytes(r.uri)
  }

  function MethodClass(verb: string): string {
    if verb == "HEAD" then "GET" else verb
  }

  function Values(r: Request, name: string): seq<string> {
    if name in r.headers then r.headers[name] else []
  }

  /** What is hashed for one header: every value followed by a zero byte. */
  function Preimage(values: seq<string>): string {
    if values == [] then "" else Preimage(values[..|values| - 1]) + values[|values| - 1] + [NUL]
  }

  function HeaderField(name: string, r: Request, digest: string -> string): string {
    "|h:" + name + "=" + digest(Preimage(Values(r, name)))
  }

  function Tail(names: seq<string>, r: Request, digest: string -> string): string {
    if names == [] then ""
    else Tail(names[..|names| - 1], r, digest) + HeaderField(names[|names| - 1], r, digest)
  }

  function Head(r: Request): string
    requires Canonical(r)
  {
    "method=" + MethodClass(r.verb) + "|host64=" + Encode(r.host) + "|uri64=" + Encode(r.uri)
  }

  function KeyOf(r: Request, names: seq<string>, digest: string -> string): string
    requires Canonical(r)
  {
    Head(r) + Tail(names, r, digest)
  }

  /** Header names in configuration order, lower-cased, blank and repeated names skipped. */
  function Distinct(raw: seq<string>): seq<string> {
    if raw == [] then []
    else
      var front, name := Distinct(raw[..|raw| - 1]), Lower(Trim(raw[|raw| - 1]));
      if name == "" || name in front then front else front + [name]
  }

  function RawNames(cfg: Config): seq<string> {
    cfg.varyHeaders + (if cfg.authorized then ["Authorization"] else []) + (if cfg.cookies then ["Cookie"] else [])
  }

  lemma {:induction false} KeyExtends(r: Request, names: seq<string>, name: string, digest: string -> string)
    requires Canonical(r)
    ensures KeyOf(r, names + [name], digest) == KeyOf(r, names, digest) + HeaderField(name, r, digest)
  {
    assert (names + [name])[..|names|] == names;
    var h, t, f := Head(r), Tail(names, r, digest), HeaderField(name, r, digest);
    assert h + (t + f) == (h + t) + f;
  }

  lemma {:induction false} DistinctStep(raw: seq<string>, i: nat)
    requires i < |raw|
    ensures var front, name := Distinct(raw[..i]), Lower(Trim(raw[i]));
            Distinct(raw[..i + 1]) == if name == "" || name in front then front else front + [name]
  {
    assert raw[..i + 1][..i] == raw[..i];
  }

  method BuildKey(r: Request, cfg: Config, digest: string -> string) returns (key: string)
    requires Canonical(r)
    ensures key == KeyOf(r, Distinct(RawNames(cfg)), digest)
  {
    var verb := r.verb;
    if verb == "HEAD" {
      verb := "GET";
    }
    key := "method=" + verb + "|host64=" + Encode(r.host) + "|uri64=" + Encode(r.uri);
    assert key + "" == key;
    var seen: seq<string> := [];
    var raw := RawNames(cfg);
    for i := 0 to |raw|
      invariant seen == Distinct(raw[..i])
      invariant key == KeyOf(r, seen, digest)
    {
      DistinctStep(raw, i);
      var name := Lower(Trim(raw[i]));
      if name != "" && name !in seen {
        KeyExtends(r, seen, name, digest);
        key := key + HeaderField(name, r, digest);
        seen := seen + [name];
      }
    }
    assert raw[..|raw|] == raw;
  }

  // ----- parsing ------------------------------------------------------------

  /** The rest of the last field that starts with `prefix`, or nothing. */
  function LastWith(fields: seq<string>, prefix: string): string {
    if fields == [] then ""
    else
      var f := fields[|fields| - 1];
      if HasPrefix(f, prefix) then f[|prefix|..] else LastWith(fields[..|fields| - 1], prefix)
  }

  function Parsed(host: string, uri: string): (string, string, bool) {
    if host == "" || uri == "" then ("", "", false)
    else if Decode(host).None? || Decode(uri).None? then ("", "", false)
    else (Decode(host).value, Decode(uri).value, true)
  }

  function KeyRequest(key: string): (string, string, bool) {
    var fields := Split(key, '|');
    Parsed(LastWith(fields, "host64="), LastWith(fields, "uri64="))
  }

  method ParseKey(key: string) returns (host: string, uri: string, ok: bool)
    ensures (host, uri, ok) == KeyRequest(key)
  {
    var encodedHost, encodedURI := "", "";
    var fields := Split(key, '|');
    for i := 0 to |fields|
      invariant encodedHost == LastWith(fields[..i], "host64=")
      invariant encodedURI == LastWith(fields[..i], "uri64=")
    {
      assert fields[..i + 1][..i] == fields[..i];
      assert HasPrefix(fields[i], "host64=") ==> fields[i][..7][0] == 'h' && fields[i][0] == 'h';
      assert HasPrefix(fields[i], "uri64=") ==> fields[i][..6][0] == 'u' && fields[i][0] == 'u';
      if HasPrefix(fields[i], "host64=") {
        encodedHost := fields[i][7..];
      } else if HasPrefix(fields[i], "uri64=") {
        encodedURI := fields[i][6..];
      }
    }
    assert fields[..|fields|] == fields;
    if encodedHost == "" || encodedURI == "" {
      return "", "", false;
    }
    var h, u := Decode(encodedHost), Decode(encodedURI);
    if h.None? || u.None? {
      return "", "", false;
    }
    return h.value, u.value, true;
  }

  // ----- what a key says ----------------------------------------------------

  lemma {:induction false} HeadFields(r: Request)
    requires Canonical(r)
    ensures Split(Head(r), '|')
            == Split("method=" + MethodClass(r.verb), '|') + ["host64=" + Encode(r.host)] + ["uri64=" + Encode(r.uri)]
  {
    var m, h, u := "method=" + MethodClass(r.verb), "host64=" + Encode(r.host), "uri64=" + Encode(r.uri);
    EncodeLacksBar(r.host);
    EncodeLacksBar(r.uri);
    SplitSingle(h, '|');
    SplitSingle(u, '|');
    SplitJoin(m, h, '|');
    SplitJoin(m + "|" + h, u, '|');
    assert Head(r) == m + "|" + h + "|" + u;
  }

  lemma {:induction false} LastWithSkips(a: seq<string>, b: seq<string>, prefix: string)
    requires forall i :: 0 <= i < |b| ==> !HasPrefix(b[i], prefix)
    ensures LastWith(a + b, prefix) == LastWith(a, prefix)
  {
    if b == [] {
      assert a + b == a;
    } else {
      assert (a + b)[..|a + b| - 1] == a + b[..|b| - 1];
      LastWithSkips(a, b[..|b| - 1], prefix);
    }
  }

  lemma {:induction false} HeadParses(r: Request)
    requires Canonical(r)
    ensures LastWith(Split(Head(r), '|'), "host64=") == Encode(r.host)
    ensures LastWith(Split(Head(r), '|'), "uri64=") == Encode(r.uri)
  {
    HeadFields(r);
    var m := Split("method=" + MethodClass(r.verb), '|');
    var h, u := "host64=" + Encode(r.host), "uri64=" + Encode(r.uri);
    assert h[..7] == "host64=" && h[7..] == Encode(r.host);
    assert u[..6] == "uri64=" && u[6..] == Encode(r.uri) && u[0] == 'u';
    LastWithSkips(m + [h], [u], "host64=");
    assert (m + [h] + [u])[..|m| + 1] == m + [h];
  }

  /** A header name that smuggles a parsed field name behind a delimiter. */
  predicate Shadows(name: string) {
    HasSuffix(name, "|host64") || HasSuffix(name, "|uri64")
  }

  /** Header names are HTTP tokens: a bar may occur in them, an equals sign may not. */
  predicate TokenNames(names: seq<string>) {
    forall i :: 0 <= i < |names| ==> Lacks(names[i], '=')
  }

  /** The last field is what follows the last separator. */
  lemma {:induction false} SplitLastField(s: string, sep: char) returns (p: string)
    ensures |Split(s, sep)| == 1 ==> Split(s, sep) == [s]
    ensures |Split(s, sep)| > 1 ==> s == p + [sep] + Split(s, sep)[|Split(s, sep)| - 1]
  {
    p := "";
    if s != "" {
      var front, c := s[..|s| - 1], s[|s| - 1];
      p := SplitLastField(front, sep);
      assert s == front + [c];
      if c == sep {
        p := front;
      }
    }
  }

  lemma {:induction false} ShadowIsLastPiece(name: string, word: string)
    requires Lacks(word, '|') && HasSuffix(name, "|" + word)
    ensures var f := Split("h:" + name, '|'); f[|f| - 1] == word
  {
    var bar := "|" + word;
    var m := name[..|name| - |bar|];
    assert name == m + bar;
    assert "h:" + name == ("h:" + m) + "|" + word;
    SplitJoin("h:" + m, word, '|');
    SplitSingle(word, '|');
  }

  lemma {:induction false} LastPieceIsShadow(name: string, word: string)
    requires |word| >= 2 && word[1] != ':'
    requires var f := Split("h:" + name, '|'); f[|f| - 1] == word
    ensures HasSuffix(name, "|" + word)
  {
    var s := "h:" + name;
    var p := SplitLastField(s, '|');
    assert s[0] == 'h' && s[1] == ':';
    assert |Split(s, '|')| > 1;
    assert s[|p|] == '|';
    assert s == p + ("|" + word);
    var bar := "|" + word;
    assert name == s[2..] && s[2..] == p[2..] + bar;
    assert name[|name| - |bar|..] == bar;
  }

  /** A piece without an equals sign never has a `word=` prefix. */
  lemma {:induction false} PlainPiece(piece: string, word: string)
    requires Lacks(piece, '=')
    ensures !HasPrefix(piece, word + "=")
  {
    var p := word + "=";
    if |p| <= |piece| {
      assert piece[..|p|][|word|] == piece[|word|] && p[|word|] == '=';
    }
  }

  /** Followed by an equals sign it has that prefix only if it is that word. */
  lemma {:induction false} PrefixedPiece(piece: string, word: string, rest: string)
    requires Lacks(piece, '=') && Lacks(word, '=')
    ensures HasPrefix(piece + "=" + rest, word + "=") <==> piece == word
  {
    var p, t := word + "=", piece + "=" + rest;
    if |piece| < |word| {
      if |p| <= |t| {
        assert t[..|p|][|piece|] == '=' && p[|piece|] == word[|piece|];
      }
    } else if |word| < |piece| {
      assert t[..|p|][|word|] == piece[|word|] && p[|word|] == '=';
    } else {
      assert t[..|p|] == piece + "=";
      assert piece == (piece + "=")[..|word|] && word == p[..|word|];
    }
  }

  datatype Part = HostPart | UriPart

  function Word(part: Part): string {
    if part == HostPart then "host64" else "uri64"
  }

  function FieldPrefix(part: Part): string {
    if part == HostPart then "host64=" else "uri64="
  }

  function Shadow(part: Part): string {
    if part == HostPart then "|host64" else "|uri64"
  }

  lemma {:induction false} PartWords(part: Part)
    ensures FieldPrefix(part) == Word(part) + "=" && Shadow(part) == "|" + Word(part)
    ensures Lacks(Word(part), '=') && Lacks(Word(part), '|') && |Word(part)| >= 2 && Word(part)[1] != ':'
  {
  }

  /** The fields a header contributes: only the last can look like a parsed field, and only if its name shadows it. */
  lemma {:induction false} HeaderFieldPieces(name: string, d: string, part: Part)
    requires Lacks(name, '=') && Lacks(d, '|')
    ensures var g := Split("h:" + name + "=" + d, '|');
            && (forall i :: 0 <= i < |g| - 1 ==> !HasPrefix(g[i], FieldPrefix(part)))
            && (HasPrefix(g[|g| - 1], FieldPrefix(part)) <==> HasSuffix(name, Shadow(part)))
            && (HasPrefix(g[|g| - 1], FieldPrefix(part)) ==> g[|g| - 1][|FieldPrefix(part)|..] == d)
  {
    PartWords(part);
    var s, word := "h:" + name, Word(part);
    var f := Split(s, '|');
    var n := |f| - 1;
    assert s + ("=" + d) == s + "=" + d;
    SplitAppend(s, "=" + d, '|');
    forall i | 0 <= i < n ensures !HasPrefix(f[i], word + "=") {
      SplitFieldsLack(s, '|', '=', i);
      PlainPiece(f[i], word);
    }
    assert f[n] + ("=" + d) == f[n] + "=" + d;
    SplitFieldsLack(s, '|', '=', n);
    PrefixedPiece(f[n], word, d);
    if f[n] == word {
      LastPieceIsShadow(name, word);
      assert (word + "=" + d)[|word| + 1..] == d;
    } else if HasSuffix(name, "|" + word) {
      ShadowIsLastPiece(name, word);
    }
  }

  lemma {:induction false} DigestShape(digest: string -> string, x: string)
    requires Hexadecimal(digest)
    ensures Lacks(digest(x), '|') && InAlphabet(digest(x)) && |digest(x)| == 64
  {
  }

  /** What the parser finds: the last shadowing header's digest if there is one, else the real field. */
  function Found(r: Request, names: seq<string>, digest: string -> string, part: Part): string
    requires Canonical(r)
  {
    if names == [] then Encode(if part == HostPart then r.host else r.uri)
    else
      var name := names[|names| - 1];
      if HasSuffix(name, Shadow(part)) then digest(Preimage(Values(r, name)))
      else Found(r, names[..|names| - 1], digest, part)
  }

  lemma {:induction false} KeyFieldsStep(key: string, name: string, d: string, part: Part)
    requires Lacks(name, '=') && Lacks(d, '|')
    ensures LastWith(Split(key + ("|h:" + name + "=" + d), '|'), FieldPrefix(part))
            == if HasSuffix(name, Shadow(part)) then d else LastWith(Split(key, '|'), FieldPrefix(part))
  {
    var body := "h:" + name + "=" + d;
    assert key + ("|h:" + name + "=" + d) == key + "|" + body;
    SplitJoin(key, body, '|');
    HeaderFieldPieces(name, d, part);
    var before, g := Split(key, '|'), Split(body, '|');
    if HasSuffix(name, Shadow(part)) {
      assert (before + g)[|before + g| - 1] == g[|g| - 1];
    } else {
      LastWithSkips(before, g, FieldPrefix(part));
    }
  }

  lemma {:induction false} KeyFieldsBare(r: Request, digest: string -> string, part: Part)
    requires Canonical(r)
    ensures LastWith(Split(KeyOf(r, [], digest), '|'), FieldPrefix(part)) == Found(r, [], digest, part)
  {
    assert KeyOf(r, [], digest) == Head(r);
    HeadParses(r);
  }

  ghost predicate Parses(r: Request, names: seq<string>, digest: string -> string, part: Part)
    requires Canonical(r)
  {
    LastWith(Split(KeyOf(r, names, digest), '|'), FieldPrefix(part)) == Found(r, names, digest, part)
  }

  lemma {:induction false} KeyFields(r: Request, names: seq<string>, digest: string -> string, part: Part)
    requires Canonical(r) && Hexadecimal(digest) && TokenNames(names)
    ensures Parses(r, names, digest, part)
  {
    if names == [] {
      KeyFieldsBare(r, digest, part);
    } else {
      KeyFields(r, names[..|names| - 1], digest, part);
      KeyFieldsMore(r, names, digest, part);
    }
  }

  lemma {:induction false} KeyFieldsMore(r: Request, names: seq<string>, digest: string -> string, part: Part)
    requires Canonical(r) && Hexadecimal(digest) && names != [] && Lacks(names[|names| - 1], '=')
    requires Parses(r, names[..|names| - 1], digest, part)
    ensures Parses(r, names, digest, part)
  {
    var front, name := names[..|names| - 1], names[|names| - 1];
    var x := Preimage(Values(r, name));
    DigestShape(digest, x);
    assert names == front + [name];
    KeyExtends(r, front, name, digest);
    KeyFieldsStep(KeyOf(r, front, digest), name, digest(x), part);
  }

  predicate Shadowed(names: seq<string>) {
    exists i :: 0 <= i < |names| && Shadows(names[i])
  }

  lemma {:induction false} FoundWithoutShadow(r: Request, names: seq<string>, digest: string -> string, part: Part)
    requires Canonical(r) && !Shadowed(names)
    ensures Found(r, names, digest, part) == Encode(if part == HostPart then r.host else r.uri)
  {
    if names != [] {
      var front := names[..|names| - 1];
      assert !Shadows(names[|names| - 1]);
      assert forall i :: 0 <= i < |front| ==> !Shadows(front[i]);
      FoundWithoutShadow(r, front, digest, part);
    }
  }

  lemma {:induction false} FoundWithShadow(r: Request, names: seq<string>, digest: string -> string, part: Part, i: nat)
    requires Canonical(r) && Hexadecimal(digest) && i < |names| && HasSuffix(names[i], Shadow(part))
    ensures |Found(r, names, digest, part)| == 64 && InAlphabet(Found(r, names, digest, part))
  {
    var name := names[|names| - 1];
    if HasSuffix(name, Shadow(part)) {
      DigestShape(digest, Preimage(Values(r, name)));
    } else {
      FoundWithShadow(r, names[..|names| - 1], digest, part, i);
    }
  }

  /** Without shadowing names a built key parses back to its own host and URI. */
  lemma {:induction false} KeyRoundTrip(r: Request, names: seq<string>, digest: string -> string)
    requires Canonical(r) && Hexadecimal(digest) && TokenNames(names) && !Shadowed(names)
    ensures KeyRequest(KeyOf(r, names, digest))
            == if r.host != "" && r.uri != "" then (r.host, r.uri, true) else ("", "", false)
  {
    KeyFields(r, names, digest, HostPart);
    KeyFields(r, names, digest, UriPart);
    FoundWithoutShadow(r, names, digest, HostPart);
    FoundWithoutShadow(r, names, digest, UriPart);
    FieldsRoundTrip(r.host, r.uri);
  }

  lemma {:induction false} FieldsRoundTrip(host: string, uri: string)
    requires IsBytes(host) && IsBytes(uri)
    ensures Parsed(Encode(host), Encode(uri)) == if host != "" && uri != "" then (host, uri, true) else ("", "", false)
  {
    EncodeInAlphabet(host);
    EncodeInAlphabet(uri);
    RoundTrip(host);
    RoundTrip(uri);
  }

  lemma {:induction false} DecodedLength(t: string)
    requires InAlphabet(t) && |t| % 4 == 0
    ensures DecodeGroups(t).Some? && |DecodeGroups(t).value| == |t| / 4 * 3
  {
    if t != "" {
      DecodedLength(t[4..]);
    }
  }

  /**
   With a shadowing name a digest of 48 bytes is read in place of the host or the URI,
   so the parse can be right only for a host or URI of that length.
   */
  lemma {:induction false} ShadowedKeyMisparses(r: Request, names: seq<string>, digest: string -> string)
    requires Canonical(r) && Hexadecimal(digest) && TokenNames(names) && Shadowed(names)
    ensures KeyRequest(KeyOf(r, names, digest)) == (r.host, r.uri, true) ==> |r.host| == 48 || |r.uri| == 48
  {
    var i :| 0 <= i < |names| && Shadows(names[i]);
    var part := if HasSuffix(names[i], Shadow(HostPart)) then HostPart else UriPart;
    var wrong := Found(r, names, digest, part);
    KeyFields(r, names, digest, HostPart);
    KeyFields(r, names, digest, UriPart);
    FoundWithShadow(r, names, digest, part, i);
    DigestIsNotShort(wrong);
  }

  lemma {:induction false} DigestIsNotShort(t: string)
    requires InAlphabet(t) && |t| == 64
    ensures Decode(t).Some? && |Decode(t).value| == 48
  {
    NoBreaksToSkip(t);
    DecodedLength(t);
  }

  /** Keys parse back for every request exactly when no varied name shadows a parsed field. */
  lemma {:induction false} RoundTripIffNotShadowed(names: seq<string>, digest: string -> string)
    requires Hexadecimal(digest) && TokenNames(names)
    ensures (forall r :: Canonical(r) && r.host != "" && r.uri != "" ==>
               KeyRequest(KeyOf(r, names, digest)) == (r.host, r.uri, true))
            <==> !Shadowed(names)
  {
    if Shadowed(names) {
      var r := Request("GET", "a", "/", map[]);
      ShadowedKeyMisparses(r, names, digest);
      assert Canonical(r);
    } else {
      forall r | Canonical(r) && r.host != "" && r.uri != ""
        ensures KeyRequest(KeyOf(r, names, digest)) == (r.host, r.uri, true)
      {
        KeyRoundTrip(r, names, digest);
      }
    }
  }

  // ----- what a key separates -----------------------------------------------

  lemma {:induction false} TailLength(names: seq<string>, r1: Request, r2: Request, digest: string -> string)
    requires Hexadecimal(digest)
    ensures |Tail(names, r1, digest)| == |Tail(names, r2, digest)|
  {
    if names != [] {
      TailLength(names[..|names| - 1], r1, r2, digest);
    }
  }

  lemma {:induction false} SamePrefix(a: string, b: string, x: string, y: string)
    requires a + x == b + y && |x| == |y|
    ensures a == b && x == y
  {
    assert a == (a + x)[..|a|] && b == (b + y)[..|b|];
    assert x == (a + x)[|a|..] && y == (b + y)[|b|..];
  }

  /** Equal tails carry equal digests, header by header. */
  lemma {:induction false} TailSeparates(names: seq<string>, r1: Request, r2: Request, digest: string -> string, i: nat)
    requires Hexadecimal(digest) && i < |names|
    requires Tail(names, r1, digest) == Tail(names, r2, digest)
    ensures digest(Preimage(Values(r1, names[i]))) == digest(Preimage(Values(r2, names[i])))
  {
    var front, name := names[..|names| - 1], names[|names| - 1];
    var f1, f2 := HeaderField(name, r1, digest), HeaderField(name, r2, digest);
    SamePrefix(Tail(front, r1, digest), Tail(front, r2, digest), f1, f2);
    if i < |front| {
      TailSeparates(front, r1, r2, digest, i);
    } else {
      var caption := "|h:" + name + "=";
      SamePrefix(caption, caption, digest(Preimage(Values(r1, name))), digest(Preimage(Values(r2, name))));
    }
  }

  /** Two requests share a key only if method class, host, URI and every varied header's digest agree. */
  lemma {:induction false} KeySeparates(r1: Request, r2: Request, names: seq<string>, digest: string -> string)
    requires Canonical(r1) && Canonical(r2) && Hexadecimal(digest)
    requires KeyOf(r1, names, digest) == KeyOf(r2, names, digest)
    ensures MethodClass(r1.verb) == MethodClass(r2.verb) && r1.host == r2.host && r1.uri == r2.uri
    ensures forall i :: 0 <= i < |names| ==>
              digest(Preimage(Values(r1, names[i]))) == digest(Preimage(Values(r2, names[i])))
  {
    TailLength(names, r1, r2, digest);
    SamePrefix(Head(r1), Head(r2), Tail(names, r1, digest), Tail(names, r2, digest));
    forall i | 0 <= i < |names|
      ensures digest(Preimage(Values(r1, names[i]))) == digest(Preimage(Values(r2, names[i])))
    {
      TailSeparates(names, r1, r2, digest, i);
    }
    HeadSeparates(r1, r2);
  }

  lemma {:induction false} EncodeSeparates(a: string, b: string)
    requires IsBytes(a) && IsBytes(b) && Encode(a) == Encode(b)
    ensures a == b
  {
    RoundTrip(a);
    RoundTrip(b);
  }

  lemma {:induction false} HeadSeparates(r1: Request, r2: Request)
    requires Canonical(r1) && Canonical(r2) && Head(r1) == Head(r2)
    ensures MethodClass(r1.verb) == MethodClass(r2.verb) && r1.host == r2.host && r1.uri == r2.uri
  {
    HeadParses(r1);
    HeadParses(r2);
    EncodeSeparates(r1.host, r2.host);
    EncodeSeparates(r1.uri, r2.uri);
    SameMethod(MethodClass(r1.verb), MethodClass(r2.verb), Encode(r1.host), Encode(r1.uri));
  }

  lemma {:induction false} SameMethod(m1: string, m2: string, h: string, u: string)
    requires "method=" + m1 + "|host64=" + h + "|uri64=" + u == "method=" + m2 + "|host64=" + h + "|uri64=" + u
    ensures m1 == m2
  {
    SamePrefix("method=" + m1 + "|host64=" + h + "|uri64=", "method=" + m2 + "|host64=" + h + "|uri64=", u, u);
    SamePrefix("method=" + m1 + "|host64=" + h, "method=" + m2 + "|host64=" + h, "|uri64=", "|uri64=");
    SamePrefix("method=" + m1 + "|host64=", "method=" + m2 + "|host64=", h, h);
    SamePrefix("method=" + m1, "method=" + m2, "|host64=", "|host64=");
    SamePrefix("method=", "method=", m1, m2);
  }

  /** Values without zero bytes are recovered from what is hashed. */
  lemma {:induction false} PreimageSplits(values: seq<string>)
    requires forall i :: 0 <= i < |values| ==> Lacks(values[i], NUL)
    ensures Split(Preimage(values), NUL) == values + [""]
  {
    if values != [] {
      var front, v := values[..|values| - 1], values[|values| - 1];
      PreimageSplits(front);
      SplitAppend(Preimage(front), v, NUL);
      SplitJoin(Preimage(front) + v, "", NUL);
      assert Preimage(values) == Preimage(front) + v + [NUL] + "";
      assert "" + v == v;
    }
  }

  /** No digest collision between the two requests: then they share a key exactly when everything keyed agrees. */
  lemma {:induction false} SharedKeyIff(r1: Request, r2: Request, names: seq<string>, digest: string -> string)
    requires Canonical(r1) && Canonical(r2) && Hexadecimal(digest)
    requires forall i, j :: 0 <= i < |names| ==>
               (0 <= j < |Values(r1, names[i])| ==> Lacks(Values(r1, names[i])[j], NUL))
               && (0 <= j < |Values(r2, names[i])| ==> Lacks(Values(r2, names[i])[j], NUL))
    requires forall i :: 0 <= i < |names| ==>
               var p1, p2 := Preimage(Values(r1, names[i])), Preimage(Values(r2, names[i]));
               digest(p1) == digest(p2) ==> p1 == p2
    ensures KeyOf(r1, names, digest) == KeyOf(r2, names, digest) <==>
            && MethodClass(r1.verb) == MethodClass(r2.verb) && r1.host == r2.host && r1.uri == r2.uri
            && forall i :: 0 <= i < |names| ==> Values(r1, names[i]) == Values(r2, names[i])
  {
    if KeyOf(r1, names, digest) == KeyOf(r2, names, digest) {
      KeySeparates(r1, r2, names, digest);
      forall i | 0 <= i < |names| ensures Values(r1, names[i]) == Values(r2, names[i]) {
        var v1, v2 := Values(r1, names[i]), Values(r2, names[i]);
        PreimageSplits(v1);
        PreimageSplits(v2);
        assert v1 == (v1 + [""])[..|v1|] && v2 == (v2 + [""])[..|v2|];
      }
    }
    if forall i :: 0 <= i < |names| ==> Values(r1, names[i]) == Values(r2, names[i]) {
      SameTail(names, r1, r2, digest);
    }
  }

  lemma {:induction false} SameTail(names: seq<string>, r1: Request, r2: Request, digest: string -> string)
    requires forall i :: 0 <= i < |names| ==> Values(r1, names[i]) == Values(r2, names[i])
    ensures Tail(names, r1, digest) == Tail(names, r2, digest)
  {
    if names != [] {
      SameTail(names[..|names| - 1], r1, r2, digest);
    }
  }

  // ----- what a key is made of ----------------------------------------------

  /** GET and HEAD share entries; any other method stands for itself. */
  lemma {:induction false} MethodClassIff(a: string, b: string)
    ensures MethodClass(a) == MethodClass(b) <==> a == b || (a in {"GET", "HEAD"} && b in {"GET", "HEAD"})
  {
  }

  lemma {:induction false} DistinctMembers(raw: seq<string>, n: string)
    ensures n in Distinct(raw) <==> n != "" && exists i :: 0 <= i < |raw| && Lower(Trim(raw[i])) == n
  {
    if raw != [] {
      var front := raw[..|raw| - 1];
      DistinctMembers(front, n);
      assert forall i :: 0 <= i < |front| ==> front[i] == raw[i];
    }
  }

  lemma {:induction false} CredentialNames()
    ensures Lower(Trim("Authorization")) == "authorization" && Lower(Trim("Cookie")) == "cookie"
  {
    TightStays("Authorization");
    TightStays("Cookie");
  }

  /** A key varies by the configured headers, in any spelling, and by the credentials that may be cached. */
  lemma {:induction false} KeyVariesBy(cfg: Config, n: string)
    ensures n in Distinct(RawNames(cfg)) <==>
              || (n != "" && exists i :: 0 <= i < |cfg.varyHeaders| && Lower(Trim(cfg.varyHeaders[i])) == n)
              || (cfg.authorized && n == "authorization") || (cfg.cookies && n == "cookie")
  {
    var raw := RawNames(cfg);
    DistinctMembers(raw, n);
    CredentialNames();
    assert forall i :: 0 <= i < |cfg.varyHeaders| ==> raw[i] == cfg.varyHeaders[i];
    if cfg.authorized {
      assert raw[|cfg.varyHeaders|] == "Authorization";
    }
    if cfg.cookies {
      assert raw[|raw| - 1] == "Cookie";
    }
    if i :| 0 <= i < |raw| && Lower(Trim(raw[i])) == n {
      assert i >= |cfg.varyHeaders| ==> raw[i] == "Authorization" || raw[i] == "Cookie";
    }
  }

  /** Requests that share a key carry the same credentials wherever credentials may be cached, barring a digest collision. */
  lemma {:induction false} CredentialsSeparate(r1: Request, r2: Request, cfg: Config, digest: string -> string, n: string)
    requires Canonical(r1) && Canonical(r2) && Hexadecimal(digest)
    requires KeyOf(r1, Distinct(RawNames(cfg)), digest) == KeyOf(r2, Distinct(RawNames(cfg)), digest)
    requires (cfg.authorized && n == "authorization") || (cfg.cookies && n == "cookie")
    ensures digest(Preimage(Values(r1, n))) == digest(Preimage(Values(r2, n)))
  {
    KeyVariesBy(cfg, n);
    KeySeparates(r1, r2, Distinct(RawNames(cfg)), digest);
  }

  // ----- invalidation -------------------------------------------------------

  const SafeMethods := {"GET", "HEAD", "OPTIONS", "TRACE"}

  predicate UnsafeMethod(verb: string) {
    verb != "GET" && verb != "HEAD" && verb != "OPTIONS" && verb != "TRACE"
  }

  lemma {:induction false} UnsafeIff(verb: string)
    ensures UnsafeMethod(verb) <==> verb !in SafeMethods
  {
  }

  /** What a request leaves in the cache. */
  function AfterInvalidation(items: map<string, Item>, r: Request, status: int): map<string, Item> {
    if r.verb !in SafeMethods && 200 <= status < 400 then items - Naming(items, KeyRequest, Lower(Trim(r.host)), r.uri) else items
  }

  /** A successful unsafe request purges its URI (RFC 9111, section 4.4); any other request leaves the cache alone. */
  method InvalidateUnsafe(cache: Cache, r: Request, status: int) returns (count: nat)
    requires cache.Valid()
    modifies cache
    ensures cache.Valid()
    ensures if r.verb !in SafeMethods && 200 <= status < 400
            then cache.ll == Drop(old(cache.ll), Naming(old(cache.items), KeyRequest, Lower(Trim(r.host)), r.uri))
            else cache.ll == old(cache.ll) && count == 0
    ensures cache.items == AfterInvalidation(old(cache.items), r, status)
  {
    UnsafeIff(r.verb);
    if !UnsafeMethod(r.verb) || status < 200 || status >= 400 {
      return 0;
    }
    count := cache.PurgeRequest(r.host, r.uri, KeyRequest);
  }

  /**
   After a successful unsafe request a stored variant is gone exactly when it was stored
   for that host and URI, whatever header values it varies by.
   */
  lemma {:induction false} InvalidationIsExact(
    items: map<string, Item>, names: seq<string>, digest: string -> string, stored: Request, r: Request, status: int)
    requires Canonical(stored) && stored.host != "" && stored.uri != ""
    requires Hexadecimal(digest) && TokenNames(names) && !Shadowed(names)
    requires KeyOf(stored, names, digest) in items
    requires r.verb !in SafeMethods && 200 <= status < 400 && Lower(Trim(r.host)) == r.host
    ensures KeyOf(stored, names, digest) in AfterInvalidation(items, r, status)
            <==> !(stored.host == r.host && stored.uri == r.uri)
  {
    KeyRoundTrip(stored, names, digest);
  }
}
