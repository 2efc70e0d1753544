/**
 Cache-Control list parsing (RFC 9110, sections 5.3 and 5.6.4; RFC 9111,
 section 5.2): splitting on commas outside quoted strings, collecting directives,
 and the proof that combining field lines keeps their meaning.
 */
module CacheControl {
  import opened Text

  // ----- splitting ----------------------------------------------------------

  /** State of the scanner: finished items, the open item, and where it stands in a quoted string. */
  datatype Scanner = Scanner(items: seq<string>, open: string, quoted: bool, escaped: bool)

  function Advance(s: Scanner, c: char): Scanner {
    if s.escaped then s.(escaped := false, open := s.open + [c])
    else if s.quoted && c == '\\' then s.(escaped := true, open := s.open + [c])
    else if c == '\"' then s.(quoted := !s.quoted, open := s.open + [c])
    else if c == ',' && !s.quoted then s.(items := s.items + [s.open], open := "")
    else s.(open := s.open + [c])
  }

  function Scan(s: Scanner, text: string): Scanner {
    if text == "" then s else Advance(Scan(s, text[..|text| - 1]), text[|text| - 1])
  }

  const Start := Scanner([], "", false, false)

  predicate WellQuoted(text: string) {
    !Scan(Start, text).quoted && !Scan(Start, text).escaped
  }

  /** The items of a list value, without regard to how it ends. */
  function Items(text: string): (r: seq<string>)
    ensures r != []
  {
    Scan(Start, text).items + [Scan(Start, text).open]
  }

  function SplitList(text: string): Option<seq<string>> {
    if WellQuoted(text) then Some(Items(text)) else None
  }

  lemma {:induction false} ScanOne(s: Scanner, c: char)
    ensures Scan(s, [c]) == Advance(s, c)
  {
    assert [c][..0] == "" && Scan(s, "") == s;
  }

  lemma {:induction false} ScanPrefix(text: string, i: nat)
    requires i < |text|
    ensures Scan(Start, text[..i + 1]) == Advance(Scan(Start, text[..i]), text[i])
  {
    assert text[..i + 1][..i] == text[..i];
  }

  method SplitHeaderList(value: string) returns (items: seq<string>, ok: bool)
    ensures ok == WellQuoted(value)
    ensures ok ==> Some(items) == SplitList(value)
  {
    items := [];
    var start := 0;
    var quoted, escaped := false, false;
    ghost var s := Start;
    for i := 0 to |value|
      invariant 0 <= start <= i
      invariant s == Scan(Start, value[..i])
      invariant s.items == items && s.open == value[start..i] && s.quoted == quoted && s.escaped == escaped
    {
      ScanPrefix(value, i);
      assert value[start..i + 1] == value[start..i] + [value[i]];
      s := Advance(s, value[i]);
      if escaped {
        escaped := false;
      } else if quoted && value[i] == '\\' {
        escaped := true;
      } else if value[i] == '\"' {
        quoted := !quoted;
      } else if value[i] == ',' && !quoted {
        items := items + [value[start..i]];
        start := i + 1;
      }
    }
    assert value[..|value|] == value;
    if quoted || escaped {
      return [], false;
    }
    items := items + [value[start..]];
    ok := true;
  }

  function Join(items: seq<string>): string
    requires items != []
  {
    if |items| == 1 then items[0] else Join(items[..|items| - 1]) + "," + items[|items| - 1]
  }

  lemma {:induction false} JoinExtendLast(items: seq<string>, x: string, c: char)
    ensures Join(items + [x + [c]]) == Join(items + [x]) + [c]
  {
    if items != [] {
      assert (items + [x])[..|items|] == items && (items + [x + [c]])[..|items|] == items;
    }
  }

  /** Joining the items with commas gives back the text. */
  lemma {:induction false} JoinUndoesSplit(text: string)
    ensures Join(Items(text)) == text
  {
    if text != "" {
      var front, c := text[..|text| - 1], text[|text| - 1];
      JoinUndoesSplit(front);
      var s := Scan(Start, front);
      assert text == front + [c];
      if Advance(s, c).items == s.items {
        JoinExtendLast(s.items, s.open, c);
      } else {
        var longer := s.items + [s.open] + [""];
        assert longer[..|longer| - 1] == s.items + [s.open];
        assert front + "," + "" == text;
      }
    }
  }

  /** Scanning continues from where a prefix left off. */
  lemma {:induction false} ScanConcat(s: Scanner, a: string, b: string)
    ensures Scan(s, a + b) == Scan(Scan(s, a), b)
  {
    if b == "" {
      assert a + b == a;
    } else {
      assert (a + b)[..|a + b| - 1] == a + b[..|b| - 1];
      ScanConcat(s, a, b[..|b| - 1]);
    }
  }

  /** Items finished earlier and text already in the open item do not influence the scan. */
  lemma {:induction false} ScanShift(before: seq<string>, lead: string, b: string)
    ensures var s, t := Scan(Scanner(before, lead, false, false), b), Scan(Start, b);
            && s.quoted == t.quoted && s.escaped == t.escaped
            && s.items + [s.open] == before + ([lead + (t.items + [t.open])[0]] + (t.items + [t.open])[1..])
  {
    var s, t := Scan(Scanner(before, lead, false, false), b), Scan(Start, b);
    if b == "" {
      assert lead + "" == lead;
    } else {
      var front, c := b[..|b| - 1], b[|b| - 1];
      ScanShift(before, lead, front);
      var s', t' := Scan(Scanner(before, lead, false, false), front), Scan(Start, front);
      ShiftStep(before, lead, s', t', c);
    }
  }

  lemma {:induction false} ShiftStep(before: seq<string>, lead: string, s: Scanner, t: Scanner, c: char)
    requires s.quoted == t.quoted && s.escaped == t.escaped
    requires s.items + [s.open] == before + ([lead + (t.items + [t.open])[0]] + (t.items + [t.open])[1..])
    ensures var s', t' := Advance(s, c), Advance(t, c);
            && s'.quoted == t'.quoted && s'.escaped == t'.escaped
            && s'.items + [s'.open] == before + ([lead + (t'.items + [t'.open])[0]] + (t'.items + [t'.open])[1..])
  {
    var x, y := s.items + [s.open], t.items + [t.open];
    var s', t' := Advance(s, c), Advance(t, c);
    var x', y' := s'.items + [s'.open], t'.items + [t'.open];
    assert |x| == |before| + |y| && x[|x| - 1] == s.open && y[|y| - 1] == t.open;
    if t.items == [] {
      assert x[|x| - 1] == lead + t.open;
    } else {
      assert x[|x| - 1] == y[|y| - 1];
    }
    if t'.items == t.items {
      assert x' == x[|x| - 1 := s.open + [c]] && y' == y[|y| - 1 := t.open + [c]];
      assert lead + t.open + [c] == lead + (t.open + [c]);
    } else {
      assert x' == x + [""] && y' == y + [""];
    }
  }

  function Led(lead: string, items: seq<string>): seq<string>
    requires items != []
  {
    [lead + items[0]] + items[1..]
  }

  /** A comma between well-quoted text and anything separates their items; `lead` is blank space after the comma. */
  lemma {:induction false} SplitCombined(a: string, lead: string, b: string)
    requires WellQuoted(a) && forall i :: 0 <= i < |lead| ==> lead[i] == ' '
    ensures WellQuoted(a + "," + lead + b) == WellQuoted(b)
    ensures Items(a + "," + lead + b) == Items(a) + Led(lead, Items(b))
  {
    var s := Scan(Start, a);
    var comma := Scanner(s.items + [s.open], "", false, false);
    assert Scan(Start, a + ",") == comma by {
      assert (a + ",")[..|a|] == a;
    }
    BlankScan(comma, lead);
    ScanConcat(Start, a + ",", lead);
    ScanConcat(Start, a + "," + lead, b);
    ScanShift(s.items + [s.open], lead, b);
  }

  lemma {:induction false} BlankScan(s: Scanner, lead: string)
    requires !s.quoted && !s.escaped && s.open == "" && forall i :: 0 <= i < |lead| ==> lead[i] == ' '
    ensures Scan(s, lead) == s.(open := lead)
  {
    if lead != "" {
      BlankScan(s, lead[..|lead| - 1]);
      assert lead == lead[..|lead| - 1] + [lead[|lead| - 1]];
    }
  }

  /** Splitting `a,b` for well-quoted `a` and `b` is splitting each. */
  lemma {:induction false} SplitOfCombined(a: string, b: string)
    requires WellQuoted(a) && WellQuoted(b)
    ensures SplitList(a + "," + b) == Some(SplitList(a).value + SplitList(b).value)
  {
    SplitCombined(a, "", b);
    assert a + "," + "" + b == a + "," + b;
    assert Led("", Items(b)) == Items(b) by {
      assert "" + Items(b)[0] == Items(b)[0];
    }
  }

  // ----- directives ---------------------------------------------------------

  datatype Directives = Directives(values: map<string, string>, duplicates: set<string>, invalid: bool)

  const NoDirectives := Directives(map[], {}, false)

  /** Position of the first `=` at or after `i`, or the length of the text. */
  function EqualsAt(d: string, i: nat): (r: nat)
    requires i <= |d|
    ensures i <= r <= |d| && (forall x :: i <= x < r ==> d[x] != '=') && (r < |d| ==> d[r] == '=')
    decreases |d| - i
  {
    if i == |d| || d[i] == '=' then i else EqualsAt(d, i + 1)
  }

  function Unescape(v: string): string {
    if v == "" then ""
    else if v[0] != '\\' then [v[0]] + Unescape(v[1..])
    else if |v| == 1 then "\\"
    else [v[1]] + Unescape(v[2..])
  }

  function Unquote(v: string): string {
    if |v| < 2 || v[0] != '\"' || v[|v| - 1] != '\"' then v else Unescape(v[1..|v| - 1])
  }

  method UnquoteHeaderValue(value: string) returns (r: string)
    ensures r == Unquote(value)
  {
    if |value| < 2 || value[0] != '\"' || value[|value| - 1] != '\"' {
      return value;
    }
    var v := value[1..|value| - 1];
    r := "";
    var escaped := false;
    for i := 0 to |v|
      invariant escaped ==> i > 0 && v[i - 1] == '\\'
      invariant r + Unescape(v[if escaped then i - 1 else i..]) == Unescape(v)
    {
      if escaped {
        UnescapePair(v, i - 1);
        r := r + [v[i]];
        escaped := false;
      } else if v[i] == '\\' {
        escaped := true;
      } else {
        assert v[i..][1..] == v[i + 1..];
        assert r + ([v[i]] + Unescape(v[i + 1..])) == r + [v[i]] + Unescape(v[i + 1..]);
        r := r + [v[i]];
      }
    }
    if escaped {
      assert v[|v| - 1..] == "\\";
      r := r + "\\";
    }
  }

  lemma {:induction false} UnescapePair(v: string, i: nat)
    requires i + 1 < |v| && v[i] == '\\'
    ensures Unescape(v[i..]) == [v[i + 1]] + Unescape(v[i + 2..])
  {
    assert v[i..][2..] == v[i + 2..];
  }

  /** One list item: an empty name spoils the field, a repeated name is noted and the first value kept. */
  function AddDirective(p: Directives, item: string): Directives {
    var d := Trim(item);
    var e := EqualsAt(d, 0);
    var key := Lower(Trim(d[..e]));
    if key == "" then p.(invalid := true)
    else if key in p.values then p.(duplicates := p.duplicates + {key})
    else p.(values := p.values[key := if e == |d| then "1" else Unquote(Trim(d[e + 1..]))])
  }

  function AddItems(p: Directives, items: seq<string>): Directives {
    if items == [] then p else AddDirective(AddItems(p, items[..|items| - 1]), items[|items| - 1])
  }

  function AddLine(p: Directives, line: string): Directives {
    if WellQuoted(line) then AddItems(p, Items(line)) else p.(invalid := true)
  }

  /** The meaning of a list of Cache-Control field lines. */
  function Parse(lines: seq<string>): Directives {
    if lines == [] then NoDirectives else AddLine(Parse(lines[..|lines| - 1]), lines[|lines| - 1])
  }

  method ParseDetailed(lines: seq<string>) returns (p: Directives)
    ensures p == Parse(lines)
  {
    p := NoDirectives;
    for i := 0 to |lines|
      invariant p == Parse(lines[..i])
    {
      assert lines[..i + 1][..i] == lines[..i];
      var items, valid := SplitHeaderList(lines[i]);
      if valid {
        p := CollectItems(p, items);
      } else {
        p := p.(invalid := true);
      }
    }
    assert lines[..|lines|] == lines;
  }

  /** The inner loop. */
  method CollectItems(start: Directives, items: seq<string>) returns (p: Directives)
    ensures p == AddItems(start, items)
  {
    p := start;
    for j := 0 to |items|
      invariant p == AddItems(start, items[..j])
    {
      assert items[..j + 1][..j] == items[..j];
      p := AddDirective(p, items[j]);
    }
    assert items[..|items|] == items;
  }

  // ----- what parsing finds -------------------------------------------------

  predicate SameLetter(a: char, b: char) {
    a == b || ('A' <= a <= 'Z' && b as int == a as int + 32) || ('A' <= b <= 'Z' && a as int == b as int + 32)
  }

  /** Equal up to the case of ASCII letters. */
  predicate SameWord(x: string, y: string) {
    |x| == |y| && forall i :: 0 <= i < |x| ==> SameLetter(x[i], y[i])
  }

  predicate Folded(k: string) {
    forall i :: 0 <= i < |k| ==> !('A' <= k[i] <= 'Z')
  }

  lemma {:induction false} FoldIff(w: string, k: string)
    requires Folded(k)
    ensures Lower(w) == k <==> SameWord(w, k)
  {
    if SameWord(w, k) {
      forall i | 0 <= i < |w| ensures Lower(w)[i] == k[i] {
        assert SameLetter(w[i], k[i]);
      }
    }
    if Lower(w) == k {
      forall i | 0 <= i < |w| ensures SameLetter(w[i], k[i]) {
        assert Lower(w)[i] == k[i];
      }
    }
  }

  lemma {:induction false} LowerIsFolded(w: string)
    ensures Folded(Lower(w))
  {
  }

  /** The item carries the name `k`: a visible word before the first `=`, with only white space around it, equal to `k` up to case. */
  ghost predicate Names(item: string, k: string) {
    exists pre, w, post ::
      && item[..EqualsAt(item, 0)] == pre + w + post && AllSpace(pre) && AllSpace(post)
      && w != "" && Tight(w) && SameWord(w, k)
  }

  function NameOf(item: string): string {
    Lower(Trim(item[..EqualsAt(item, 0)]))
  }

  /** The value: `1` for a bare name, else what stands behind the first `=`, trimmed and unquoted. */
  function ValueOf(item: string): string {
    var e := EqualsAt(item, 0);
    if e == |item| then "1" else Unquote(Trim(item[e + 1..]))
  }

  lemma {:induction false} NamesIff(item: string, k: string)
    requires Folded(k)
    ensures Names(item, k) <==> NameOf(item) == k && k != ""
  {
    var head := item[..EqualsAt(item, 0)];
    if pre, w, post :| head == pre + w + post && AllSpace(pre) && AllSpace(post) && w != "" && Tight(w) && SameWord(w, k) {
      TrimUndoesPadding(pre, w, post);
      FoldIff(w, k);
    }
    if NameOf(item) == k && k != "" {
      var pre, post := TrimSplits(head);
      FoldIff(Trim(head), k);
    }
  }

  lemma {:induction false} FirstEquals(d: string, r: nat)
    requires r <= |d| && (forall x :: 0 <= x < r ==> d[x] != '=') && (r < |d| ==> d[r] == '=')
    ensures EqualsAt(d, 0) == r
  {
  }

  lemma {:induction false} TrimIgnoresEnds(pre: string, x: string, post: string)
    requires AllSpace(pre) && AllSpace(post)
    ensures Trim(pre + x + post) == Trim(x)
  {
    var a, b := TrimSplits(x);
    assert pre + x + post == (pre + a) + Trim(x) + (b + post);
    TrimUndoesPadding(pre + a, Trim(x), b + post);
  }

  lemma {:induction false} TrimmedBareItem(item: string)
    requires EqualsAt(Trim(item), 0) == |Trim(item)|
    ensures EqualsAt(item, 0) == |item| && NameOf(Trim(item)) == NameOf(item)
  {
    var d := Trim(item);
    var pre, post := TrimSplits(item);
    FirstEquals(item, |item|);
    assert item[..|item|] == item && d[..|d|] == d;
    TightStays(d);
  }

  lemma {:induction false} TrimmedFullItem(item: string, pre: string, post: string)
    requires item == pre + Trim(item) + post && AllSpace(pre) && AllSpace(post) && EqualsAt(Trim(item), 0) < |Trim(item)|
    ensures var d := Trim(item); var e := EqualsAt(d, 0);
            && EqualsAt(item, 0) == |pre| + e
            && item[..|pre| + e] == pre + d[..e] + "" && item[|pre| + e + 1..] == "" + d[e + 1..] + post
  {
    FirstEquals(item, |pre| + EqualsAt(Trim(item), 0));
  }

  /** Trimming the item first, as the parser does, changes neither name nor value. */
  lemma {:induction false} TrimmedItem(item: string)
    ensures NameOf(Trim(item)) == NameOf(item) && ValueOf(Trim(item)) == ValueOf(item)
  {
    var d := Trim(item);
    var e := EqualsAt(d, 0);
    if e == |d| {
      TrimmedBareItem(item);
    } else {
      var pre, post := TrimSplits(item);
      TrimmedFullItem(item, pre, post);
      TrimIgnoresEnds(pre, d[..e], "");
      TrimIgnoresEnds("", d[e + 1..], post);
    }
  }

  lemma {:induction false} AddsByName(p: Directives, item: string)
    ensures AddDirective(p, item)
         == var k := NameOf(item);
            if k == "" then p.(invalid := true)
            else if k in p.values then p.(duplicates := p.duplicates + {k})
            else p.(values := p.values[k := ValueOf(item)])
  {
    TrimmedItem(item);
  }

  /** Item `i` is the first that carries the name `k`. */
  ghost predicate FirstNamed(items: seq<string>, k: string, i: int) {
    0 <= i < |items| && NameOf(items[i]) == k && forall j :: 0 <= j < i ==> NameOf(items[j]) != k
  }

  ghost predicate Named(items: seq<string>, k: string) {
    exists i :: 0 <= i < |items| && NameOf(items[i]) == k
  }

  ghost predicate NamedTwice(items: seq<string>, k: string) {
    exists i, j :: 0 <= i < j < |items| && NameOf(items[i]) == k && NameOf(items[j]) == k
  }

  lemma {:induction false} NamedStep(items: seq<string>, k: string)
    requires items != []
    ensures Named(items, k) <==> Named(items[..|items| - 1], k) || NameOf(items[|items| - 1]) == k
  {
    var front := items[..|items| - 1];
    if i :| 0 <= i < |front| && NameOf(front[i]) == k {
      assert NameOf(items[i]) == k;
    }
    if i :| 0 <= i < |items| && NameOf(items[i]) == k {
      assert i < |front| ==> NameOf(front[i]) == k;
    }
  }

  lemma {:induction false} NamedTwiceStep(items: seq<string>, k: string)
    requires items != []
    ensures NamedTwice(items, k)
            <==> NamedTwice(items[..|items| - 1], k) || (Named(items[..|items| - 1], k) && NameOf(items[|items| - 1]) == k)
  {
    var front := items[..|items| - 1];
    if i, j :| 0 <= i < j < |items| && NameOf(items[i]) == k && NameOf(items[j]) == k {
      assert NameOf(front[i]) == k;
      assert j < |front| ==> NameOf(front[j]) == k;
    }
    if i, j :| 0 <= i < j < |front| && NameOf(front[i]) == k && NameOf(front[j]) == k {
      assert NameOf(items[i]) == k && NameOf(items[j]) == k;
    }
    if i :| 0 <= i < |front| && NameOf(front[i]) == k {
      assert NameOf(items[i]) == k;
    }
  }

  lemma {:induction false} ItemsFind(items: seq<string>, k: string)
    requires k != ""
    ensures k in AddItems(NoDirectives, items).values <==> Named(items, k)
    ensures k in AddItems(NoDirectives, items).duplicates <==> NamedTwice(items, k)
  {
    if items != [] {
      var front := items[..|items| - 1];
      ItemsFind(front, k);
      AddsByName(AddItems(NoDirectives, front), items[|items| - 1]);
      NamedStep(items, k);
      NamedTwiceStep(items, k);
    }
  }

  lemma {:induction false} KeepsValue(p: Directives, item: string, k: string)
    requires k in p.values
    ensures k in AddDirective(p, item).values && AddDirective(p, item).values[k] == p.values[k]
  {
    AddsByName(p, item);
  }

  lemma {:induction false} TakesValue(p: Directives, item: string, k: string)
    requires k !in p.values && k != "" && NameOf(item) == k
    ensures k in AddDirective(p, item).values && AddDirective(p, item).values[k] == ValueOf(item)
  {
    AddsByName(p, item);
  }

  /** The first item of a name gives the value. */
  lemma {:induction false} FirstGivesValue(items: seq<string>, k: string, i: nat)
    requires k != "" && FirstNamed(items, k, i)
    ensures k in AddItems(NoDirectives, items).values && AddItems(NoDirectives, items).values[k] == ValueOf(items[i])
  {
    var front, last := items[..|items| - 1], items[|items| - 1];
    var p := AddItems(NoDirectives, front);
    assert AddItems(NoDirectives, items) == AddDirective(p, last);
    if i < |front| {
      FirstInFront(items, k, i);
      FirstGivesValue(front, k, i);
      KeepsValue(p, last, k);
    } else {
      ItemsFind(front, k);
      TakesValue(p, last, k);
    }
  }

  lemma {:induction false} FirstInFront(items: seq<string>, k: string, i: nat)
    requires FirstNamed(items, k, i) && i < |items| - 1
    ensures FirstNamed(items[..|items| - 1], k, i)
  {
    assert forall j :: 0 <= j < |items| - 1 ==> items[..|items| - 1][j] == items[j];
  }

  /** All items of the lines that can be split. */
  function AllItems(lines: seq<string>): seq<string> {
    if lines == [] then []
    else
      var last := lines[|lines| - 1];
      AllItems(lines[..|lines| - 1]) + (if WellQuoted(last) then Items(last) else [])
  }

  lemma {:induction false} InvalidChangesNothingElse(p: Directives, items: seq<string>)
    ensures AddItems(p, items).values == AddItems(p.(invalid := false), items).values
    ensures AddItems(p, items).duplicates == AddItems(p.(invalid := false), items).duplicates
  {
    if items != [] {
      InvalidChangesNothingElse(p, items[..|items| - 1]);
    }
  }

  lemma {:induction false} ParseIsAllItems(lines: seq<string>)
    ensures var p, q := Parse(lines), AddItems(NoDirectives, AllItems(lines));
            p.values == q.values && p.duplicates == q.duplicates
  {
    if lines != [] {
      var front, last := lines[..|lines| - 1], lines[|lines| - 1];
      ParseIsAllItems(front);
      if WellQuoted(last) {
        AddItemsConcat(NoDirectives, AllItems(front), Items(last));
        SameFieldsOn(Parse(front), AddItems(NoDirectives, AllItems(front)), Items(last));
      } else {
        assert AllItems(front) + [] == AllItems(front);
      }
    }
  }

  lemma {:induction false} SameFieldsOn(p: Directives, q: Directives, items: seq<string>)
    requires p.values == q.values && p.duplicates == q.duplicates
    ensures AddItems(p, items).values == AddItems(q, items).values
    ensures AddItems(p, items).duplicates == AddItems(q, items).duplicates
  {
    InvalidChangesNothingElse(p, items);
    InvalidChangesNothingElse(q, items);
    assert p.(invalid := false) == q.(invalid := false);
  }

  lemma {:induction false} NamedMeans(items: seq<string>, k: string)
    requires Folded(k) && k != ""
    ensures Named(items, k) <==> exists i :: 0 <= i < |items| && Names(items[i], k)
    ensures NamedTwice(items, k) <==> exists i, j :: 0 <= i < j < |items| && Names(items[i], k) && Names(items[j], k)
  {
    forall i | 0 <= i < |items| ensures Names(items[i], k) <==> NameOf(items[i]) == k {
      NamesIff(items[i], k);
    }
  }

  /**
   A directive is found exactly when some item carries its name, in any case; it counts
   as repeated exactly when two items do; and the first of them gives its value.
   */
  lemma {:induction false} ParseFinds(lines: seq<string>, k: string)
    requires Folded(k) && k != ""
    ensures var items, p := AllItems(lines), Parse(lines);
            && (k in p.values <==> exists i :: 0 <= i < |items| && Names(items[i], k))
            && (k in p.duplicates <==> exists i, j :: 0 <= i < j < |items| && Names(items[i], k) && Names(items[j], k))
  {
    ParseIsAllItems(lines);
    ItemsFind(AllItems(lines), k);
    NamedMeans(AllItems(lines), k);
  }

  lemma {:induction false} ParseTakesFirstValue(lines: seq<string>, k: string, i: nat)
    requires Folded(k) && k != "" && i < |AllItems(lines)| && Names(AllItems(lines)[i], k)
    requires forall j :: 0 <= j < i ==> !Names(AllItems(lines)[j], k)
    ensures k in Parse(lines).values && Parse(lines).values[k] == ValueOf(AllItems(lines)[i])
  {
    var items := AllItems(lines);
    ParseIsAllItems(lines);
    NamesIff(items[i], k);
    forall j | 0 <= j < i ensures NameOf(items[j]) != k {
      NamesIff(items[j], k);
    }
    FirstGivesValue(items, k, i);
  }

  /** Every directive is kept under its folded name. */
  lemma {:induction false} FoundNamesAreFolded(items: seq<string>, k: string)
    requires k in AddItems(NoDirectives, items).values
    ensures Folded(k) && k != ""
  {
    if items != [] {
      var front := items[..|items| - 1];
      AddsByName(AddItems(NoDirectives, front), items[|items| - 1]);
      if k in AddItems(NoDirectives, front).values {
        FoundNamesAreFolded(front, k);
      } else {
        LowerIsFolded(Trim(items[|items| - 1][..EqualsAt(items[|items| - 1], 0)]));
      }
    }
  }

  /** The same item with the name written in another case. */
  predicate CaseVariant(x: string, y: string) {
    var e := EqualsAt(x, 0);
    |y| == |x| && x[e..] == y[e..] && SameWord(x[..e], y[..e])
  }

  lemma {:induction false} SameWordLower(x: string, y: string)
    requires SameWord(x, y)
    ensures Lower(x) == Lower(y)
  {
    forall i | 0 <= i < |x| ensures Lower(x)[i] == Lower(y)[i] {
      assert SameLetter(x[i], y[i]);
    }
  }

  lemma {:induction false} LowerTrim(x: string)
    ensures Lower(Trim(x)) == Trim(Lower(x))
  {
    var pre, post := TrimSplits(x);
    var t := Trim(x);
    assert Lower(x) == pre + Lower(t) + post by {
      assert forall i :: 0 <= i < |pre| ==> pre[i] == x[i] && IsSpace(pre[i]);
      assert forall i :: 0 <= i < |t| ==> t[i] == x[|pre| + i];
      assert forall i :: 0 <= i < |post| ==> post[i] == x[|pre| + |t| + i] && IsSpace(post[i]);
    }
    TrimUndoesPadding(pre, Lower(t), post);
  }

  lemma {:induction false} VariantParts(x: string, y: string)
    requires CaseVariant(x, y)
    ensures EqualsAt(y, 0) == EqualsAt(x, 0) && ValueOf(x) == ValueOf(y)
  {
    var e := EqualsAt(x, 0);
    forall i | 0 <= i < e ensures y[i] != '=' {
      assert SameLetter(x[..e][i], y[..e][i]) && x[..e][i] == x[i];
    }
    assert e < |x| ==> y[e..][0] == x[e..][0];
    FirstEquals(y, e);
    assert e < |x| ==> x[e + 1..] == x[e..][1..] && y[e + 1..] == y[e..][1..];
  }

  /** The case of a directive's name does not matter. */
  lemma {:induction false} NameCaseIsIrrelevant(p: Directives, x: string, y: string)
    requires CaseVariant(x, y)
    ensures AddDirective(p, x) == AddDirective(p, y)
  {
    var e := EqualsAt(x, 0);
    VariantParts(x, y);
    SameWordLower(x[..e], y[..e]);
    LowerTrim(x[..e]);
    LowerTrim(y[..e]);
    AddsByName(p, x);
    AddsByName(p, y);
  }

  lemma {:induction false} ItemCaseIsIrrelevant(p: Directives, xs: seq<string>, ys: seq<string>)
    requires |xs| == |ys| && forall i :: 0 <= i < |xs| ==> CaseVariant(xs[i], ys[i])
    ensures AddItems(p, xs) == AddItems(p, ys)
  {
    if xs != [] {
      var n := |xs| - 1;
      ItemCaseIsIrrelevant(p, xs[..n], ys[..n]);
      NameCaseIsIrrelevant(AddItems(p, xs[..n]), xs[n], ys[n]);
    }
  }

  /** Nor anywhere in the field lines: lines whose items differ only in the case of names mean the same. */
  lemma {:induction false} LineCaseIsIrrelevant(xs: seq<string>, ys: seq<string>)
    requires |xs| == |ys| && forall i :: 0 <= i < |xs| ==> LineVariant(xs[i], ys[i])
    ensures Parse(xs) == Parse(ys)
  {
    if xs != [] {
      var n := |xs| - 1;
      LineCaseIsIrrelevant(xs[..n], ys[..n]);
      assert LineVariant(xs[n], ys[n]);
      if WellQuoted(xs[n]) {
        ItemCaseIsIrrelevant(Parse(xs[..n]), Items(xs[n]), Items(ys[n]));
      }
    }
  }

  ghost predicate LineVariant(x: string, y: string) {
    && (WellQuoted(x) <==> WellQuoted(y)) && |Items(x)| == |Items(y)|
    && forall i :: 0 <= i < |Items(x)| ==> CaseVariant(Items(x)[i], Items(y)[i])
  }

  // ----- combining lines ----------------------------------------------------

  lemma {:induction false} AddItemsConcat(p: Directives, a: seq<string>, b: seq<string>)
    ensures AddItems(p, a + b) == AddItems(AddItems(p, a), b)
  {
    if b == [] {
      assert a + b == a;
    } else {
      assert (a + b)[..|a + b| - 1] == a + b[..|b| - 1];
      AddItemsConcat(p, a, b[..|b| - 1]);
    }
  }

  lemma {:induction false} TrimBlankLead(lead: string, x: string)
    requires forall i :: 0 <= i < |lead| ==> lead[i] == ' '
    ensures Trim(lead + x) == Trim(x)
  {
    if lead == "" {
      assert lead + x == x;
    } else {
      assert (lead + x)[1..] == lead[1..] + x;
      TrimBlankLead(lead[1..], x);
    }
  }

  /** Blank space before the first item does not change what the items mean. */
  lemma {:induction false} AddItemsLed(p: Directives, lead: string, items: seq<string>)
    requires items != [] && forall i :: 0 <= i < |lead| ==> lead[i] == ' '
    ensures AddItems(p, Led(lead, items)) == AddItems(p, items)
  {
    var first, led, rest := items[0], lead + items[0], items[1..];
    assert items == [first] + rest;
    AddItemsConcat(p, [first], rest);
    AddItemsConcat(p, [led], rest);
    AddOne(p, first);
    AddOne(p, led);
    TrimBlankLead(lead, first);
  }

  lemma {:induction false} AddOne(p: Directives, item: string)
    ensures AddItems(p, [item]) == AddDirective(p, item)
  {
    assert [item][..0] == [] && AddItems(p, []) == p;
  }

  /** The lines written as one, separated by a comma and optional blanks. */
  function Combine(lines: seq<string>, lead: string): string
    requires lines != []
  {
    if |lines| == 1 then lines[0] else Combine(lines[..|lines| - 1], lead) + "," + lead + lines[|lines| - 1]
  }

  ghost predicate AllWellQuoted(lines: seq<string>) {
    forall i :: 0 <= i < |lines| ==> WellQuoted(lines[i])
  }

  predicate Blank(lead: string) {
    forall i :: 0 <= i < |lead| ==> lead[i] == ' '
  }

  lemma {:induction false} CombinedMeans(lines: seq<string>, lead: string)
    requires lines != [] && Blank(lead) && AllWellQuoted(lines)
    ensures WellQuoted(Combine(lines, lead))
    ensures AddItems(NoDirectives, Items(Combine(lines, lead))) == Parse(lines)
  {
    var front, last := lines[..|lines| - 1], lines[|lines| - 1];
    if front == [] {
      assert lines == [last] && Parse(front) == NoDirectives;
    } else {
      CombinedMeans(front, lead);
      var c := Combine(front, lead);
      SplitCombined(c, lead, last);
      AddItemsConcat(NoDirectives, Items(c), Led(lead, Items(last)));
      AddItemsLed(Parse(front), lead, Items(last));
    }
  }

  /** However well-quoted lines were coalesced, directives, duplicates and validity are the same. */
  lemma {:induction false} CoalescingKeepsMeaning(lines: seq<string>, lead: string)
    requires lines != [] && Blank(lead) && AllWellQuoted(lines)
    ensures Parse([Combine(lines, lead)]) == Parse(lines)
  {
    CombinedMeans(lines, lead);
    var one := [Combine(lines, lead)];
    assert one[..0] == [] && Parse(one) == AddLine(Parse(one[..0]), one[0]);
  }

  /** A pending escape is always inside a quoted string. */
  lemma {:induction false} EscapedIsQuoted(text: string)
    ensures Scan(Start, text).escaped ==> Scan(Start, text).quoted
  {
    if text != "" {
      EscapedIsQuoted(text[..|text| - 1]);
    }
  }

  /** An open quote reaches past the comma and the `x` behind it. */
  lemma {:induction false} OpenQuoteStaysOpen(a: string)
    requires !WellQuoted(a)
    ensures !WellQuoted(a + "," + "x")
  {
    EscapedIsQuoted(a);
    var s := Scan(Start, a);
    ScanOne(s, ',');
    ScanConcat(Start, a, ",");
    assert Scan(Start, a + ",") == Advance(s, ',') && Advance(s, ',').quoted;
    ScanOne(Advance(s, ','), 'x');
    ScanConcat(Start, a + ",", "x");
  }

  lemma {:induction false} ParseOne(a: string)
    ensures Parse([a]) == AddLine(NoDirectives, a)
  {
    assert [a][..0] == [] && [a][0] == a;
  }

  lemma {:induction false} SingleItem(text: string)
    requires Scan(Start, text) == Scanner([], text, false, false)
    ensures SplitList(text) == Some([text]) && Parse([text]) == AddDirective(NoDirectives, text)
  {
    assert Items(text) == [text];
    ParseOne(text);
    AddOne(NoDirectives, text);
  }

  lemma {:induction false} PlainName()
    ensures Trim("x") == "x" && EqualsAt("x", 0) == 1 && Lower("x") == "x"
  {
    assert TrimLeft("x") == "x" && TrimRight("x") == "x";
    assert EqualsAt("x", 1) == 1;
  }

  lemma {:induction false} PlainItem(p: Directives)
    ensures "x" in AddDirective(p, "x").values
  {
    PlainName();
    assert "x"[..1] == "x";
  }

  lemma {:induction false} PlainLine()
    ensures WellQuoted("x") && Items("x") == ["x"]
  {
    ScanOne(Start, 'x');
    assert Advance(Start, 'x').open == "x";
  }

  lemma {:induction false} PlainDirective(p: Directives)
    ensures "x" in AddLine(p, "x").values
  {
    PlainLine();
    AddOne(p, "x");
    PlainItem(p);
  }

  /** Whatever ill-quoted line comes first, a directive `x` on the next line is read on its own and lost when combined. */
  lemma {:induction false} OpenQuoteSwallowsLine(a: string)
    requires !WellQuoted(a)
    ensures Combine([a, "x"], "") == a + "," + "x" && "x" !in Parse([Combine([a, "x"], "")]).values
    ensures "x" in Parse([a, "x"]).values
  {
    assert [a, "x"][..1] == [a] && Combine([a], "") == a;
    assert a + "," + "" + "x" == a + "," + "x";
    OpenQuoteStaysOpen(a);
    ParseOne(a + "," + "x");
    assert Parse([a, "x"]) == AddLine(Parse([a]), "x");
    PlainDirective(Parse([a]));
  }

  /** A line may be combined with whatever well-quoted lines follow it exactly when it is well-quoted itself. */
  lemma {:induction false} CombinesWithAllIff(a: string)
    ensures (forall rest, lead :: rest != [] && AllWellQuoted(rest) && Blank(lead) ==>
               Parse([Combine([a] + rest, lead)]) == Parse([a] + rest))
            <==> WellQuoted(a)
  {
    if WellQuoted(a) {
      forall rest, lead | rest != [] && AllWellQuoted(rest) && Blank(lead)
        ensures Parse([Combine([a] + rest, lead)]) == Parse([a] + rest)
      {
        CoalescingKeepsMeaning([a] + rest, lead);
      }
    } else {
      OpenQuoteSwallowsLine(a);
      PlainLine();
      assert [a] + ["x"] == [a, "x"] && AllWellQuoted(["x"]) && Blank("");
      assert Parse([Combine([a] + ["x"], "")]) != Parse([a] + ["x"]);
    }
  }

  // ----- lines that become valid when combined ------------------------------

  /** An item without a name spoils the whole field. */
  predicate Nameless(item: string) {
    TrimLeft(item) == "" || TrimLeft(item)[0] == '='
  }

  lemma {:induction false} TrimLeftFirst(s: string)
    ensures TrimLeft(s) != "" ==> !IsSpace(TrimLeft(s)[0])
  {
    if s != "" && IsSpace(s[0]) {
      TrimLeftFirst(s[1..]);
    }
  }

  lemma {:induction false} TrimRightStart(s: string)
    requires s != "" && !IsSpace(s[0])
    ensures TrimRight(s) != "" && TrimRight(s)[0] == s[0]
  {
    if IsSpace(s[|s| - 1]) {
      TrimRightStart(s[..|s| - 1]);
    }
  }

  lemma {:induction false} DirectiveInvalidIff(p: Directives, item: string)
    ensures AddDirective(p, item).invalid <==> p.invalid || Nameless(item)
  {
    var l, d := TrimLeft(item), Trim(item);
    TrimLeftFirst(item);
    if l != "" {
      TrimRightStart(l);
      if d[0] != '=' {
        var name := d[..EqualsAt(d, 0)];
        assert name[0] == d[0];
        TrimRightStart(name);
      }
    }
  }

  ghost predicate AllNamed(items: seq<string>) {
    forall i :: 0 <= i < |items| ==> !Nameless(items[i])
  }

  lemma {:induction false} AllNamedStep(items: seq<string>)
    requires items != []
    ensures AllNamed(items) <==> AllNamed(items[..|items| - 1]) && !Nameless(items[|items| - 1])
  {
    var front := items[..|items| - 1];
    assert forall i :: 0 <= i < |front| ==> front[i] == items[i];
  }

  lemma {:induction false} ItemsInvalidIff(p: Directives, items: seq<string>)
    ensures AddItems(p, items).invalid <==> p.invalid || !AllNamed(items)
  {
    if items != [] {
      var front := items[..|items| - 1];
      ItemsInvalidIff(p, front);
      DirectiveInvalidIff(AddItems(p, front), items[|items| - 1]);
      AllNamedStep(items);
    }
  }

  /** What follows a visible character does not decide whether there is a name. */
  lemma {:induction false} NamelessExtends(o: string, x: string)
    requires TrimLeft(o) != ""
    ensures Nameless(o + x) <==> Nameless(o)
  {
    if IsSpace(o[0]) {
      assert (o + x)[1..] == o[1..] + x;
      NamelessExtends(o[1..], x);
    }
  }

  lemma {:induction false} VisibleStays(o: string, x: string)
    requires TrimLeft(o) != ""
    ensures TrimLeft(o + x) != ""
  {
    if IsSpace(o[0]) {
      assert (o + x)[1..] == o[1..] + x;
      VisibleStays(o[1..], x);
    }
  }

  lemma {:induction false} VisibleEnd(o: string, c: char)
    requires !IsSpace(c)
    ensures TrimLeft(o + [c]) != ""
  {
    if o != "" && IsSpace(o[0]) {
      assert (o + [c])[1..] == o[1..] + [c];
      VisibleEnd(o[1..], c);
    }
  }

  /** Inside quotes, the open item holds at least the quote. */
  lemma {:induction false} QuotedIsVisible(text: string)
    ensures Scan(Start, text).quoted ==> TrimLeft(Scan(Start, text).open) != ""
  {
    if text != "" {
      var s, c := Scan(Start, text[..|text| - 1]), text[|text| - 1];
      QuotedIsVisible(text[..|text| - 1]);
      EscapedIsQuoted(text[..|text| - 1]);
      if s.quoted {
        VisibleStays(s.open, [c]);
      } else if c == '\"' {
        VisibleEnd(s.open, c);
      }
    }
  }

  /** Reading on leaves finished items alone and only extends the open one. */
  lemma {:induction false} ScanExtends(s: Scanner, text: string) returns (x: string)
    ensures var t := Scan(s, text); var all := t.items + [t.open];
            |all| > |s.items| && all[..|s.items|] == s.items && all[|s.items|] == s.open + x
  {
    if text == "" {
      x := "";
      assert s.open + x == s.open;
    } else {
      var front, c := text[..|text| - 1], text[|text| - 1];
      var t := Scan(s, front);
      x := ScanExtends(s, front);
      if |t.items| == |s.items| && Advance(t, c).items == t.items {
        x := x + [c];
        assert s.open + x == t.open + [c];
      }
    }
  }

  /** Closes any open quote: an escaped quote, a letter and a quote. */
  const Closer := "\\\"y\""

  lemma {:induction false} CloserLetters()
    ensures Closer == ['\\'] + ['\"'] + ['y'] + ['\"']
  {
  }

  lemma {:induction false} CloserAlone()
    ensures WellQuoted(Closer)
  {
    CloserLetters();
    var s1 := Advance(Start, '\\');
    ScanOne(Start, '\\');
    ScanOne(s1, '\"');
    ScanConcat(Start, ['\\'], ['\"']);
    ScanOne(Advance(s1, '\"'), 'y');
    ScanConcat(Start, ['\\'] + ['\"'], ['y']);
    ScanOne(Advance(Advance(s1, '\"'), 'y'), '\"');
    ScanConcat(Start, ['\\'] + ['\"'] + ['y'], ['\"']);
  }

  /** From inside a quoted string a comma and the closer lead out of it, in the same item. */
  lemma {:induction false} CloserCloses(s: Scanner)
    requires s.quoted
    ensures Scan(s, "," + Closer) == Scanner(s.items, s.open + ("," + Closer), false, false)
  {
    CloserLetters();
    var t := s.(escaped := false, open := s.open + ",");
    ScanOne(s, ',');
    ScanOne(t, '\\');
    ScanConcat(s, ",", ['\\']);
    var t1 := t.(escaped := true, open := t.open + ['\\']);
    ScanOne(t1, '\"');
    ScanConcat(s, "," + ['\\'], ['\"']);
    var t2 := t.(open := t1.open + ['\"']);
    ScanOne(t2, 'y');
    ScanConcat(s, "," + ['\\'] + ['\"'], ['y']);
    var t3 := t.(open := t2.open + ['y']);
    ScanOne(t3, '\"');
    ScanConcat(s, "," + ['\\'] + ['\"'] + ['y'], ['\"']);
    assert "," + Closer == "," + ['\\'] + ['\"'] + ['y'] + ['\"'];
    assert t3.open + ['\"'] == s.open + ("," + Closer);
  }

  lemma {:induction false} ParseTwo(a: string, b: string)
    ensures Parse([a, b]) == AddLine(AddLine(NoDirectives, a), b)
  {
    assert [a, b][..1] == [a];
    ParseOne(a);
  }

  lemma {:induction false} StaysInvalid(p: Directives, line: string)
    requires p.invalid
    ensures AddLine(p, line).invalid
  {
    ItemsInvalidIff(p, Items(line));
  }

  /** Two lines refused when separate and accepted when combined. */
  ghost predicate Heals(a: string, b: string) {
    WellQuoted(b) && Parse([a, b]).invalid && !Parse([a + "," + b]).invalid
  }

  lemma {:induction false} CloserHeals(a: string)
    requires !WellQuoted(a) && AllNamed(Items(a))
    ensures Heals(a, Closer)
  {
    var s := Scan(Start, a);
    EscapedIsQuoted(a);
    QuotedIsVisible(a);
    CloserAlone();
    ParseTwo(a, Closer);
    StaysInvalid(AddLine(NoDirectives, a), Closer);
    var c := a + "," + Closer;
    assert c == a + ("," + Closer);
    ScanConcat(Start, a, "," + Closer);
    CloserCloses(s);
    NamelessExtends(s.open, "," + Closer);
    assert s.open == Items(a)[|s.items|];
    forall i | 0 <= i < |Items(c)| ensures !Nameless(Items(c)[i]) {
      assert i < |s.items| ==> Items(c)[i] == Items(a)[i];
    }
    ParseOne(c);
    ItemsInvalidIff(NoDirectives, Items(c));
  }

  lemma {:induction false} PairKeepsMeaning(a: string, b: string)
    requires WellQuoted(a) && WellQuoted(b)
    ensures Parse([a + "," + b]) == Parse([a, b])
  {
    assert [a, b][..1] == [a] && Combine([a], "") == a;
    assert Combine([a, b], "") == a + "," + "" + b == a + "," + b;
    CoalescingKeepsMeaning([a, b], "");
  }

  lemma {:induction false} HealedIsIllQuoted(a: string, b: string)
    requires Heals(a, b)
    ensures !WellQuoted(a)
  {
    if WellQuoted(a) {
      PairKeepsMeaning(a, b);
    }
  }

  lemma {:induction false} HealedIsNamed(a: string, b: string)
    requires Heals(a, b)
    ensures AllNamed(Items(a))
  {
    HealedIsIllQuoted(a, b);
    EscapedIsQuoted(a);
    QuotedIsVisible(a);
    var s, c := Scan(Start, a), a + "," + b;
    assert c == a + ("," + b);
    ScanConcat(Start, a, "," + b);
    var x := ScanExtends(s, "," + b);
    ParseOne(c);
    ItemsInvalidIff(NoDirectives, Items(c));
    NamelessExtends(s.open, x);
    forall i | 0 <= i < |Items(a)| ensures !Nameless(Items(a)[i]) {
      assert i < |s.items| ==> Items(c)[i] == Items(a)[i];
    }
  }

  /**
   Some continuation turns a refused pair of lines into an accepted single line exactly
   when the first line leaves a quote open and has no nameless item.
   */
  lemma {:induction false} CombiningHealsIff(a: string)
    ensures (exists b :: Heals(a, b)) <==> !WellQuoted(a) && AllNamed(Items(a))
  {
    if b :| Heals(a, b) {
      HealedIsIllQuoted(a, b);
      HealedIsNamed(a, b);
    }
    if !WellQuoted(a) && AllNamed(Items(a)) {
      CloserHeals(a);
    }
  }

  /** The smallest such pair, and the line it makes. */
  const OpenLine := "x=\""
  const HealedLine := OpenLine + "," + Closer

  lemma {:induction false} OpenLineScan()
    ensures Scan(Start, OpenLine) == Scanner([], OpenLine, true, false)
  {
    assert OpenLine == ['x'] + ['='] + ['\"'];
    var s1 := Advance(Start, 'x');
    ScanOne(Start, 'x');
    ScanOne(s1, '=');
    ScanConcat(Start, ['x'], ['=']);
    ScanOne(Advance(s1, '='), '\"');
    ScanConcat(Start, ['x'] + ['='], ['\"']);
  }

  lemma {:induction false} HealedLineName()
    ensures Trim(HealedLine) == HealedLine && EqualsAt(HealedLine, 0) == 1 && HealedLine[..1] == "x"
  {
    CloserLetters();
    var h := HealedLine;
    assert h[0] == 'x' && h[1] == '=' && h[|h| - 1] == '\"';
    assert EqualsAt(h, 1) == 1;
  }

  /** Separate, the two lines are invalid; combined, they are one harmless directive. */
  lemma {:induction false} HealedLineParses()
    ensures Parse([OpenLine, Closer]).invalid
    ensures var p := Parse([HealedLine]); !p.invalid && p.duplicates == {} && p.values.Keys == {"x"}
  {
    OpenLineScan();
    ParseTwo(OpenLine, Closer);
    StaysInvalid(AddLine(NoDirectives, OpenLine), Closer);
    CloserCloses(Scan(Start, OpenLine));
    ScanConcat(Start, OpenLine, "," + Closer);
    assert HealedLine == OpenLine + ("," + Closer);
    SingleItem(HealedLine);
    HealedLineName();
    PlainName();
  }

  // ----- quoted values ------------------------------------------------------

  function EscapeChar(c: char): string {
    if c == '\"' || c == '\\' then ['\\', c] else [c]
  }

  function Escape(v: string): string {
    if v == "" then "" else EscapeChar(v[0]) + Escape(v[1..])
  }

  function Quote(v: string): string {
    "\"" + Escape(v) + "\""
  }

  lemma {:induction false} UnescapeUndoesEscape(v: string)
    ensures Unescape(Escape(v)) == v
  {
    if v != "" {
      UnescapeUndoesEscape(v[1..]);
      var e := Escape(v);
      if v[0] == '\"' || v[0] == '\\' {
        assert e[2..] == Escape(v[1..]) && e[1] == v[0];
      } else {
        assert e[1..] == Escape(v[1..]);
      }
      assert v == [v[0]] + v[1..];
    }
  }

  /** Any value survives quoting and unquoting. */
  lemma {:induction false} UnquoteUndoesQuote(v: string)
    ensures Unquote(Quote(v)) == v
  {
    UnescapeUndoesEscape(v);
    var q := Quote(v);
    assert q[1..|q| - 1] == Escape(v);
  }

  lemma {:induction false} ScanEscaped(lead: string, v: string)
    ensures Scan(Scanner([], lead, true, false), Escape(v)) == Scanner([], lead + Escape(v), true, false)
    decreases v
  {
    if v == "" {
      assert lead + "" == lead;
    } else {
      var first, rest := EscapeChar(v[0]), Escape(v[1..]);
      var s := Scanner([], lead, true, false);
      calc {
        Scan(s, first + rest);
      == { ScanConcat(s, first, rest); }
        Scan(Scan(s, first), rest);
      == { ScanEscapedChar(lead, v[0]); }
        Scan(Scanner([], lead + first, true, false), rest);
      == { ScanEscaped(lead + first, v[1..]); }
        Scanner([], lead + first + rest, true, false);
      == { assert lead + first + rest == lead + (first + rest); }
        Scanner([], lead + (first + rest), true, false);
      }
    }
  }

  lemma {:induction false} ScanEscapedChar(lead: string, c: char)
    ensures Scan(Scanner([], lead, true, false), EscapeChar(c)) == Scanner([], lead + EscapeChar(c), true, false)
  {
    var s := Scanner([], lead, true, false);
    if c == '\"' || c == '\\' {
      ScanOne(s, '\\');
      ScanOne(Scanner([], lead + ['\\'], true, true), c);
      ScanConcat(s, ['\\'], [c]);
      assert ['\\'] + [c] == ['\\', c] && lead + ['\\'] + [c] == lead + ['\\', c];
    } else {
      ScanOne(s, c);
    }
  }

  /** A quoted value is one item, whatever commas and quotes it holds. */
  lemma {:induction false} QuotedIsOneItem(v: string)
    ensures SplitList(Quote(v)) == Some([Quote(v)])
  {
    var q, e := "\"", Escape(v);
    ScanOne(Start, '\"');
    assert "" + ['\"'] == q;
    ScanConcat(Start, q, e);
    ScanEscaped(q, v);
    ScanOne(Scanner([], q + e, true, false), '\"');
    ScanConcat(Start, q + e, q);
    SingleItem(Quote(v));
  }
}
