/**
 The response cache: a recency list and a key index bounded in entries and
 bytes. Times are integers on one clock.
 */
module LruCache {
  import opened Text

  datatype Entry = Entry(
    status: int, header: seq<(string, seq<string>)>, body: string,
    storedAt: int, expiresAt: int, staleUntil: int)

  function TotalLength(values: seq<string>): nat {
    if values == [] then 0 else TotalLength(values[..|values| - 1]) + |values[|values| - 1]|
  }

  function HeaderSize(header: seq<(string, seq<string>)>): nat {
    if header == [] then 0
    else
      var field := header[|header| - 1];
      HeaderSize(header[..|header| - 1]) + |field.0| + TotalLength(field.1)
  }

  function Size(e: Entry): nat {
    |e.body| + HeaderSize(e.header)
  }

  ghost function Concat(values: seq<string>): string {
    if values == [] then "" else values[0] + Concat(values[1..])
  }

  /** A header written out, names and values one after the other. */
  ghost function Written(header: seq<(string, seq<string>)>): string {
    if header == [] then "" else header[0].0 + Concat(header[0].1) + Written(header[1..])
  }

  lemma {:induction false} TotalIsConcat(values: seq<string>)
    ensures TotalLength(values) == |Concat(values)|
  {
    if |values| == 1 {
      assert values[..0] == [] && values[1..] == [];
    } else if |values| > 1 {
      var n := |values| - 1;
      TotalIsConcat(values[1..]);
      TotalIsConcat(values[..n]);
      TotalIsConcat(values[1..n]);
      assert values[1..][..n - 1] == values[1..n] == values[..n][1..];
    }
  }

  lemma {:induction false} HeaderIsWritten(header: seq<(string, seq<string>)>)
    ensures HeaderSize(header) == |Written(header)|
  {
    if |header| == 1 {
      assert header[..0] == [] && header[1..] == [];
      TotalIsConcat(header[0].1);
    } else if |header| > 1 {
      var n := |header| - 1;
      HeaderIsWritten(header[1..]);
      HeaderIsWritten(header[..n]);
      HeaderIsWritten(header[1..n]);
      assert header[1..][..n - 1] == header[1..n] == header[..n][1..];
    }
  }

  /** An entry weighs as much as its body and its header written out. */
  lemma {:induction false} SizeIsText(e: Entry)
    ensures Size(e) == |e.body| + |Written(e.header)|
  {
    HeaderIsWritten(e.header);
  }

  datatype Item = Item(key: string, entry: Entry, size: int)

  datatype Lookup = Miss | Fresh(entry: Entry) | Stale(entry: Entry)

  /** How a stored entry is classified at a lookup. */
  function Classify(e: Entry, now: int): Lookup {
    if now > e.staleUntil then Miss else if now <= e.expiresAt then Fresh(e) else Stale(e)
  }

  // ----- the recency list ---------------------------------------------------

  function Bytes(ll: seq<Item>): int {
    if ll == [] then 0 else Bytes(ll[..|ll| - 1]) + ll[|ll| - 1].size
  }

  /** The key index that belongs to a recency list. */
  function Index(ll: seq<Item>): map<string, Item> {
    if ll == [] then map[]
    else
      var last := ll[|ll| - 1];
      Index(ll[..|ll| - 1])[last.key := last]
  }

  /** No key twice and every size positive. */
  predicate Shape(ll: seq<Item>) {
    ll == []
    || (Shape(ll[..|ll| - 1]) && ll[|ll| - 1].key !in Index(ll[..|ll| - 1]) && ll[|ll| - 1].size > 0)
  }

  /** The list without the items whose key is in `keys`, order kept. */
  function Drop(ll: seq<Item>, keys: set<string>): seq<Item> {
    if ll == [] then []
    else
      var last := ll[|ll| - 1];
      Drop(ll[..|ll| - 1], keys) + (if last.key in keys then [] else [last])
  }

  predicate Fits(ll: seq<Item>, maxEntries: int, maxBytes: int) {
    |ll| <= maxEntries && Bytes(ll) <= maxBytes
  }

  /** What evicting from the back until both limits hold leaves. */
  function Evicted(ll: seq<Item>, maxEntries: int, maxBytes: int): seq<Item>
    requires maxEntries >= 0 && maxBytes >= 0
  {
    if Fits(ll, maxEntries, maxBytes) then ll else Evicted(ll[..|ll| - 1], maxEntries, maxBytes)
  }

  /** Eviction keeps the longest prefix of the recency order that fits. */
  lemma {:induction false} EvictedIsLongestPrefix(ll: seq<Item>, maxEntries: int, maxBytes: int)
    requires maxEntries >= 0 && maxBytes >= 0
    ensures var kept := Evicted(ll, maxEntries, maxBytes);
            && kept <= ll
            && Fits(kept, maxEntries, maxBytes)
            && forall j :: |kept| < j <= |ll| ==> !Fits(ll[..j], maxEntries, maxBytes)
  {
    if !Fits(ll, maxEntries, maxBytes) {
      var front := ll[..|ll| - 1];
      EvictedIsLongestPrefix(front, maxEntries, maxBytes);
      forall j | |Evicted(ll, maxEntries, maxBytes)| < j <= |ll|
        ensures !Fits(ll[..j], maxEntries, maxBytes)
      {
        if j < |ll| {
          assert front[..j] == ll[..j];
        } else {
          assert ll[..j] == ll;
        }
      }
    }
  }

  /** An item that fits on its own is never evicted from the front. */
  lemma {:induction false} FrontSurvives(ll: seq<Item>, maxEntries: int, maxBytes: int)
    requires maxEntries >= 1 && maxBytes >= 0 && ll != [] && ll[0].size <= maxBytes
    ensures Evicted(ll, maxEntries, maxBytes) != []
    ensures Evicted(ll, maxEntries, maxBytes)[0] == ll[0]
  {
    EvictedIsLongestPrefix(ll, maxEntries, maxBytes);
    var one := ll[..1];
    assert one[..0] == [] && Bytes(one) == Bytes(one[..0]) + one[0].size;
    assert Fits(one, maxEntries, maxBytes);
  }

  lemma {:induction false} DropTwice(ll: seq<Item>, a: set<string>, b: set<string>)
    ensures Drop(Drop(ll, a), b) == Drop(ll, a + b)
  {
    if ll != [] {
      var front, last := ll[..|ll| - 1], ll[|ll| - 1];
      DropTwice(front, a, b);
      var d := Drop(front, a);
      if last.key in a {
        assert Drop(ll, a) == d;
      } else {
        assert Drop(ll, a) == d + [last] && (d + [last])[..|d|] == d;
      }
    }
  }

  lemma {:induction false} DropNothing(ll: seq<Item>)
    ensures Drop(ll, {}) == ll
  {
    if ll != [] {
      DropNothing(ll[..|ll| - 1]);
    }
  }

  lemma {:induction false} DropAbsent(ll: seq<Item>, key: string)
    requires key !in Index(ll)
    ensures Drop(ll, {key}) == ll
  {
    if ll != [] {
      var front, last := ll[..|ll| - 1], ll[|ll| - 1];
      DropAbsent(front, key);
      assert last.key != key && Drop(ll, {key}) == front + [last] == ll;
    }
  }

  /** Index and list are in bijection: every listed item is under its own key, once ... */
  lemma {:induction false} ListIsIndexed(ll: seq<Item>, i: nat)
    requires Shape(ll) && i < |ll|
    ensures ll[i].key in Index(ll) && Index(ll)[ll[i].key] == ll[i]
  {
    if i < |ll| - 1 {
      ListIsIndexed(ll[..|ll| - 1], i);
    }
  }

  /** ... and every indexed key has its item in the list. */
  lemma {:induction false} IndexIsListed(ll: seq<Item>, key: string) returns (at: nat)
    requires Shape(ll) && key in Index(ll)
    ensures at < |ll| && ll[at] == Index(ll)[key] && ll[at].key == key
  {
    at := |ll| - 1;
    if ll[at].key != key {
      at := IndexIsListed(ll[..at], key);
    }
  }

  lemma {:induction false} IndexOfDrop(ll: seq<Item>, keys: set<string>)
    ensures Shape(ll) ==> Index(Drop(ll, keys)) == Index(ll) - keys
  {
    if Shape(ll) && ll != [] {
      var front, last := ll[..|ll| - 1], ll[|ll| - 1];
      IndexOfDrop(front, keys);
      var d := Drop(front, keys);
      assert (d + [last])[..|d|] == d;
      if last.key in keys {
        assert Drop(ll, keys) == d;
        assert Index(front)[last.key := last] - keys == Index(front) - keys;
      } else {
        assert Index(front)[last.key := last] - keys == (Index(front) - keys)[last.key := last];
      }
    }
  }

  lemma {:induction false} DropShape(ll: seq<Item>, keys: set<string>)
    requires Shape(ll)
    ensures Shape(Drop(ll, keys))
  {
    if ll != [] {
      var front, last := ll[..|ll| - 1], ll[|ll| - 1];
      DropShape(front, keys);
      IndexOfDrop(front, keys);
      var d := Drop(front, keys);
      assert (d + [last])[..|d|] == d && d + [] == d;
    }
  }

  lemma {:induction false} DropSizes(ll: seq<Item>, key: string)
    requires Shape(ll) && key in Index(ll)
    ensures Bytes(Drop(ll, {key})) == Bytes(ll) - Index(ll)[key].size && Index(ll)[key].size > 0
    ensures Index(ll)[key].key == key && |Drop(ll, {key})| == |ll| - 1
  {
    var front, last := ll[..|ll| - 1], ll[|ll| - 1];
    if last.key == key {
      DropAbsent(front, key);
      assert Drop(ll, {key}) == front;
    } else {
      DropSizes(front, key);
      var d := Drop(front, {key});
      assert Drop(ll, {key}) == d + [last] && (d + [last])[..|d|] == d;
    }
  }

  /** Removing a present key removes exactly its item and its bytes. */
  lemma {:induction false} DropPresent(ll: seq<Item>, key: string)
    requires Shape(ll) && key in Index(ll)
    ensures Shape(Drop(ll, {key})) && Index(Drop(ll, {key})) == Index(ll) - {key}
    ensures Bytes(Drop(ll, {key})) == Bytes(ll) - Index(ll)[key].size && Index(ll)[key].size > 0
    ensures Index(ll)[key].key == key && |Drop(ll, {key})| == |ll| - 1
  {
    DropShape(ll, {key});
    IndexOfDrop(ll, {key});
    DropSizes(ll, key);
  }

  lemma {:induction false} PushFrontFacts(ll: seq<Item>, it: Item)
    requires Shape(ll) && it.key !in Index(ll) && it.size > 0
    ensures Shape([it] + ll) && Index([it] + ll) == Index(ll)[it.key := it]
    ensures Bytes([it] + ll) == it.size + Bytes(ll)
  {
    var longer, n := [it] + ll, |ll|;
    if n == 0 {
      assert longer[..0] == [];
    } else {
      PushFrontFacts(ll[..n - 1], it);
      assert longer[..n] == [it] + ll[..n - 1];
    }
  }

  // ----- the cache ----------------------------------------------------------

  /** The keys that name one request URI on one host. */
  function Naming(items: map<string, Item>, keyRequest: string -> (string, string, bool), host: string, uri: string): set<string> {
    set k | k in items && keyRequest(k) == (host, uri, true)
  }

  lemma {:induction false} PurgeStep(ll: seq<Item>, all: set<string>, todo: set<string>, key: string)
    requires key in todo
    ensures key in all ==> Drop(Drop(ll, all - todo), {key}) == Drop(ll, all - (todo - {key}))
    ensures key in all ==> |all - (todo - {key})| == |all - todo| + 1
    ensures key !in all ==> all - (todo - {key}) == all - todo
  {
    DropTwice(ll, all - todo, {key});
    if key in all {
      assert all - (todo - {key}) == (all - todo) + {key};
    } else {
      assert all - (todo - {key}) == all - todo;
    }
  }

  class Cache {
    const maxEntries: int
    const maxBytes: int
    var bytes: int
    var ll: seq<Item>            // most recently used first
    var items: map<string, Item>
    var evictions: nat

    /** Index and list agree and `bytes` is the total size. */
    ghost predicate Consistent()
      reads this
    {
      maxEntries >= 0 && maxBytes >= 0 && Shape(ll) && items == Index(ll) && bytes == Bytes(ll)
    }

    ghost predicate Valid()
      reads this
    {
      Consistent() && Fits(ll, maxEntries, maxBytes)
    }

    constructor (maxEntries: int, maxBytes: int)
      requires maxEntries >= 0 && maxBytes >= 0
      ensures Valid() && this.maxEntries == maxEntries && this.maxBytes == maxBytes
      ensures ll == [] && evictions == 0
    {
      this.maxEntries, this.maxBytes := maxEntries, maxBytes;
      bytes, ll, items, evictions := 0, [], map[], 0;
    }

    method RemoveElement(key: string, eviction: bool)
      requires Consistent() && key in items
      modifies `ll, `items, `bytes, `evictions
      ensures Consistent()
      ensures ll == Drop(old(ll), {key}) && |ll| == |old(ll)| - 1
      ensures items == old(items) - {key}
      ensures bytes == old(bytes) - old(items)[key].size < old(bytes)
      ensures evictions == old(evictions) + (if eviction then 1 else 0)
    {
      var it := items[key];
      DropPresent(ll, key);
      items := items - {key};
      ll := Drop(ll, {key});
      bytes := bytes - it.size;
      if eviction {
        evictions := evictions + 1;
      }
    }

    method RemoveOldest()
      requires Consistent()
      modifies `ll, `items, `bytes, `evictions
      ensures Consistent()
      ensures old(ll) == [] ==> ll == [] && items == old(items) && bytes == old(bytes) && evictions == old(evictions)
      ensures old(ll) != [] ==> ll == old(ll)[..|old(ll)| - 1] && evictions == old(evictions) + 1
    {
      if ll != [] {
        DropAbsent(ll[..|ll| - 1], ll[|ll| - 1].key);
        RemoveElement(ll[|ll| - 1].key, true);
      }
    }

    /** A hit moves to the front; an entry past its stale limit is dropped. */
    method Get(key: string, now: int) returns (r: Lookup)
      requires Valid()
      modifies `ll, `items, `bytes, `evictions
      ensures Valid() && evictions == old(evictions)
      ensures key !in old(items) ==> r == Miss && ll == old(ll)
      ensures key in old(items) ==>
                && r == Classify(old(items)[key].entry, now)
                && ll == (if r == Miss then [] else [old(items)[key]]) + Drop(old(ll), {key})
    {
      if key !in items {
        return Miss;
      }
      var it := items[key];
      if now > it.entry.staleUntil {
        RemoveElement(key, false);
        return Miss;
      }
      MoveToFront(key);
      r := if now <= it.entry.expiresAt then Fresh(it.entry) else Stale(it.entry);
    }

    method PushFront(it: Item)
      requires Consistent() && it.key !in items && it.size > 0
      modifies `ll, `items, `bytes
      ensures Consistent()
      ensures ll == [it] + old(ll) && items == old(items)[it.key := it] && bytes == old(bytes) + it.size
    {
      PushFrontFacts(ll, it);
      ll, items, bytes := [it] + ll, items[it.key := it], bytes + it.size;
    }

    method MoveToFront(key: string)
      requires Consistent() && key in items
      modifies `ll, `items, `bytes, `evictions
      ensures Consistent()
      ensures ll == [old(items)[key]] + Drop(old(ll), {key}) && |ll| == |old(ll)|
      ensures bytes == old(bytes) && evictions == old(evictions)
    {
      var it := items[key];
      DropPresent(ll, key);
      RemoveElement(key, false);
      PushFront(it);
    }

    /** Evict from the back until both limits hold. */
    method Shrink()
      requires Consistent() && maxEntries >= 0 && maxBytes >= 0
      modifies `ll, `items, `bytes, `evictions
      ensures Consistent() && ll == Evicted(old(ll), maxEntries, maxBytes) && Fits(ll, maxEntries, maxBytes)
      ensures evictions == old(evictions) + |old(ll)| - |ll|
    {
      while |ll| > maxEntries || bytes > maxBytes
        invariant Consistent()
        invariant Evicted(ll, maxEntries, maxBytes) == Evicted(old(ll), maxEntries, maxBytes)
        invariant evictions == old(evictions) + |old(ll)| - |ll|
        decreases |ll|
      {
        RemoveOldest();
      }
    }

    /** An accepted entry goes to the front and the longest prefix that fits stays; a rejected one changes nothing. */
    method Set(key: string, entry: Entry) returns (ok: bool)
      requires Valid()
      modifies `ll, `items, `bytes, `evictions
      ensures Valid()
      ensures ok == (0 < Size(entry) + |key| <= maxBytes)
      ensures !ok ==> ll == old(ll) && items == old(items) && evictions == old(evictions)
      ensures ok ==>
                var full := [Item(key, entry, Size(entry) + |key|)] + Drop(old(ll), {key});
                ll == Evicted(full, maxEntries, maxBytes) && evictions == old(evictions) + |full| - |ll|
      ensures ok && maxEntries >= 1 ==> key in items && items[key].entry == entry
    {
      var size := Size(entry) + |key|;
      if size <= 0 || size > maxBytes {
        return false;
      }
      if key in items {
        RemoveElement(key, false);
      } else {
        DropAbsent(ll, key);
      }
      PushFront(Item(key, entry, size));
      ghost var full := ll;
      Shrink();
      if maxEntries >= 1 {
        FrontSurvives(full, maxEntries, maxBytes);
        ListIsIndexed(ll, 0);
      }
      ok := true;
    }

    method Delete(key: string) returns (found: bool)
      requires Valid()
      modifies `ll, `items, `bytes, `evictions
      ensures Valid() && evictions == old(evictions)
      ensures found == (key in old(items))
      ensures ll == Drop(old(ll), {key})
    {
      if key !in items {
        DropAbsent(ll, key);
        return false;
      }
      RemoveElement(key, false);
      found := true;
    }

    /** Removes exactly the entries whose key the parser maps to this host and URI, in any order. */
    method PurgeRequest(host: string, uri: string, keyRequest: string -> (string, string, bool)) returns (count: nat)
      requires Valid()
      modifies `ll, `items, `bytes, `evictions
      ensures Valid() && evictions == old(evictions)
      ensures ll == Drop(old(ll), Naming(old(items), keyRequest, Lower(Trim(host)), uri))
      ensures items == old(items) - Naming(old(items), keyRequest, Lower(Trim(host)), uri)
      ensures count == |Naming(old(items), keyRequest, Lower(Trim(host)), uri)|
    {
      var name := Lower(Trim(host));
      count := 0;
      var todo := items.Keys;
      ghost var all := Naming(items, keyRequest, name, uri);
      DropNothing(ll);
      assert all - todo == {};
      while todo != {}
        invariant Valid() && evictions == old(evictions)
        invariant todo <= items.Keys
        invariant ll == Drop(old(ll), all - todo) && count == |all - todo|
        decreases todo
      {
        var key :| key in todo;
        PurgeStep(old(ll), all, todo, key);
        if keyRequest(key) == (name, uri, true) {
          RemoveElement(key, false);
          count := count + 1;
        }
        todo := todo - {key};
      }
      assert all - todo == all;
      IndexOfDrop(old(ll), all);
    }

    method Clear() returns (count: nat)
      requires Valid()
      modifies `ll, `items, `bytes
      ensures Valid() && ll == [] && items == map[] && count == |old(items)|
    {
      count := |items|;
      ll, items, bytes := [], map[], 0;
    }
  }
}
