/**
 * The browser's Cache Storage as the service worker uses it: a map from
 * cache name to (request URL to stored response), together with the cache
 * names in creation order, the order in which `caches.keys()` lists them
 * and `caches.match` searches them.
 */
module CacheStorage {
  import opened Wrappers

  /**
   * A response reduced to what the worker looks at: the status, the body
   * text and the `sw-cache-time` header, a millisecond epoch stamp.
   */
  datatype Response = Response(status: int, body: string, stamp: Option<nat>) {
    /** `response.ok` of the Fetch standard: a status in the range 200 to 299. */
    predicate Ok() {
      200 <= status <= 299
    }
  }

  type Entries = map<string, Response>

  datatype Storage = Storage(names: seq<string>, caches: map<string, Entries>) {
    /** The names list each cache exactly once. */
    ghost predicate Valid() {
      Distinct(names) && forall n :: n in caches <==> n in names
    }
  }

  predicate Distinct(ns: seq<string>) {
    forall i, j :: 0 <= i < j < |ns| ==> ns[i] != ns[j]
  }

  lemma DistinctCons(x: string, ns: seq<string>)
    requires Distinct(ns) && x !in ns
    ensures Distinct([x] + ns)
  {
    var r := [x] + ns;
    forall i, j | 0 <= i < j < |r| ensures r[i] != r[j] {
      assert r[j] == ns[j - 1];
      if i > 0 {
        assert r[i] == ns[i - 1];
      }
    }
  }

  /** The entries of the cache called `name`; a missing cache reads as empty. */
  function EntriesOf(s: Storage, name: string): Entries {
    if name in s.caches then s.caches[name] else map[]
  }

  /**
   * `caches.match(url)`: the response stored for `url` in the first cache,
   * among `names`, that holds one.
   */
  function MatchIn(names: seq<string>, caches: map<string, Entries>, url: string): (r: Option<Response>)
    ensures r.None? <==> forall k :: 0 <= k < |names| && names[k] in caches ==> url !in caches[names[k]]
    ensures r.Some? ==> exists k :: && 0 <= k < |names| && names[k] in caches
                                   && url in caches[names[k]] && caches[names[k]][url] == r.value
                                   && forall j :: 0 <= j < k && names[j] in caches ==> url !in caches[names[j]]
  {
    if names == [] then None
    else if names[0] in caches && url in caches[names[0]] then Some(caches[names[0]][url])
    else
      var r := MatchIn(names[1..], caches, url);
      assert forall k :: 1 <= k < |names| ==> names[k] == names[1..][k - 1];
      r
  }

  function Match(s: Storage, url: string): Option<Response> {
    MatchIn(s.names, s.caches, url)
  }

  /** `caches.open(name)`: the named cache, created empty and listed last if it is missing. */
  function Open(s: Storage, name: string): (r: Storage)
    requires s.Valid()
    ensures r.Valid() && name in r.caches
    ensures r.caches == if name in s.caches then s.caches else s.caches[name := map[]]
    ensures r.names == if name in s.caches then s.names else s.names + [name]
  {
    if name in s.caches then s
    else
      var r := Storage(s.names + [name], s.caches[name := map[]]);
      assert Distinct(r.names) by {
        forall i, j | 0 <= i < j < |r.names| ensures r.names[i] != r.names[j] {
          assert r.names[i] in s.names;
        }
      }
      r
  }

  /** `caches.open(name)` followed by `cache.put(url, resp)`. */
  function Put(s: Storage, name: string, url: string, resp: Response): (r: Storage)
    requires s.Valid()
    ensures r.Valid()
    ensures r.caches == s.caches[name := EntriesOf(s, name)[url := resp]]
    ensures r.names == Open(s, name).names
  {
    var o := Open(s, name);
    o.(caches := o.caches[name := o.caches[name][url := resp]])
  }

  /**
   * A response just put is found again: `caches.match` then answers the
   * URL, and with the very response put when no cache held the URL before.
   */
  lemma PutThenMatch(s: Storage, name: string, url: string, resp: Response)
    requires s.Valid()
    ensures Match(Put(s, name, url, resp), url).Some?
    ensures Match(s, url).None? ==> Match(Put(s, name, url, resp), url) == Some(resp)
  {
    var r := Put(s, name, url, resp);
    assert name in r.names;
    var k :| 0 <= k < |r.names| && r.names[k] == name;
    assert r.names[k] in r.caches && url in r.caches[r.names[k]];
    if Match(s, url).None? {
      forall j | 0 <= j < |r.names| && r.names[j] in r.caches && r.names[j] != name
        ensures url !in r.caches[r.names[j]]
      {
        assert r.names[j] in s.names;
        var i :| 0 <= i < |s.names| && s.names[i] == r.names[j];
      }
    }
  }

  /** `names` without those in `gone`, the others in their order. */
  function RemoveAll(names: seq<string>, gone: set<string>): (r: seq<string>)
    ensures forall x :: x in r <==> x in names && x !in gone
  {
    if names == [] then []
    else if names[0] in gone then RemoveAll(names[1..], gone)
    else [names[0]] + RemoveAll(names[1..], gone)
  }

  lemma {:induction false} RemoveAllDistinct(names: seq<string>, gone: set<string>)
    requires Distinct(names)
    ensures Distinct(RemoveAll(names, gone))
  {
    if names != [] {
      var tail := names[1..];
      assert Distinct(tail) by {
        forall i, j | 0 <= i < j < |tail| ensures tail[i] != tail[j] {
          assert tail[i] == names[i + 1] && tail[j] == names[j + 1];
        }
      }
      assert names[0] !in tail by {
        forall k | 0 <= k < |tail| ensures tail[k] != names[0] {
          assert tail[k] == names[k + 1];
        }
      }
      RemoveAllDistinct(tail, gone);
      if names[0] !in gone {
        DistinctCons(names[0], RemoveAll(tail, gone));
      }
    }
  }

  /** `caches.delete` of every name in `gone`. */
  function DeleteAll(s: Storage, gone: set<string>): (r: Storage)
    requires s.Valid()
    ensures r.Valid()
  {
    RemoveAllDistinct(s.names, gone);
    Storage(RemoveAll(s.names, gone), s.caches - gone)
  }

  /**
   * After deleting `gone`, exactly the other caches are left, each with
   * its entries, and they keep their creation order.
   */
  lemma DeleteAllContents(s: Storage, gone: set<string>, i: nat, j: nat)
    requires s.Valid()
    ensures var r := DeleteAll(s, gone);
      && (forall n :: n in r.caches <==> n in s.caches && n !in gone)
      && (forall n :: n in r.caches ==> r.caches[n] == s.caches[n])
      && (i < j < |s.names| && s.names[i] !in gone && s.names[j] !in gone ==>
            exists a, b :: 0 <= a < b < |r.names| && r.names[a] == s.names[i] && r.names[b] == s.names[j])
  {
    if i < j < |s.names| && s.names[i] !in gone && s.names[j] !in gone {
      RemoveAllOrder(s.names, gone, i, j);
    }
  }

  /** Removing names keeps the order of two names that both stay. */
  lemma {:induction false} RemoveAllOrder(names: seq<string>, gone: set<string>, i: nat, j: nat)
    requires i < j < |names| && names[i] !in gone && names[j] !in gone
    ensures var r := RemoveAll(names, gone);
      exists a, b :: 0 <= a < b < |r| && r[a] == names[i] && r[b] == names[j]
  {
    var rest := RemoveAll(names[1..], gone);
    assert names[j] == names[1..][j - 1];
    if i == 0 {
      assert names[j] in rest;
      var b :| 0 <= b < |rest| && rest[b] == names[j];
      assert RemoveAll(names, gone) == [names[0]] + rest;
      var r := RemoveAll(names, gone);
      assert r[0] == names[0] && r[b + 1] == names[j];
    } else {
      assert names[i] == names[1..][i - 1];
      RemoveAllOrder(names[1..], gone, i - 1, j - 1);
      var a, b :| 0 <= a < b < |rest| && rest[a] == names[i] && rest[b] == names[j];
      if names[0] !in gone {
        assert RemoveAll(names, gone) == [names[0]] + rest;
        assert RemoveAll(names, gone)[a + 1] == names[i] && RemoveAll(names, gone)[b + 1] == names[j];
      } else {
        assert RemoveAll(names, gone) == rest;
      }
    }
  }

  /** `caches.delete(name)`. */
  function Delete(s: Storage, name: string): (r: Storage)
    requires s.Valid()
    ensures r.Valid()
  {
    DeleteAll(s, {name})
  }

  /** `caches.delete(name)` removes that cache and leaves every other one as it was. */
  lemma DeleteOne(s: Storage, name: string)
    requires s.Valid()
    ensures var r := Delete(s, name);
      && name !in r.caches && name !in r.names
      && (forall n :: n != name ==> (n in r.caches <==> n in s.caches))
      && (forall n :: n in r.caches ==> r.caches[n] == s.caches[n])
  {
  }

  /** The map that `cache.addAll` adds: each URL with its response, a later pair overriding an earlier one. */
  function BatchMap(batch: seq<(string, Response)>): map<string, Response> {
    if batch == [] then map[] else map[batch[0].0 := batch[0].1] + BatchMap(batch[1..])
  }

  /** `caches.open(name)` followed by a successful `cache.addAll`, which stores the whole batch at once. */
  function PutAll(s: Storage, name: string, batch: seq<(string, Response)>): (r: Storage)
    requires s.Valid()
    ensures r.Valid()
    ensures r.caches == s.caches[name := EntriesOf(s, name) + BatchMap(batch)]
    ensures r.names == Open(s, name).names
  {
    var o := Open(s, name);
    o.(caches := o.caches[name := o.caches[name] + BatchMap(batch)])
  }

  /** Removing in two rounds is removing the union, so deleting one cache at a time adds up. */
  lemma {:induction false} RemoveAllTwice(names: seq<string>, g: set<string>, h: set<string>)
    ensures RemoveAll(RemoveAll(names, g), h) == RemoveAll(names, g + h)
  {
    if names != [] {
      RemoveAllTwice(names[1..], g, h);
    }
  }

  lemma {:induction false} RemoveNothing(names: seq<string>)
    ensures RemoveAll(names, {}) == names
  {
    if names != [] {
      RemoveNothing(names[1..]);
    }
  }

  /** Deleting nothing leaves the storage as it was. */
  lemma DeleteNothing(s: Storage)
    requires s.Valid()
    ensures DeleteAll(s, {}) == s
  {
    RemoveNothing(s.names);
    assert s.caches - {} == s.caches;
  }

  /** Deleting one more cache after the set `gone` is deleting `gone` and it. */
  lemma DeleteStep(s: Storage, gone: set<string>, name: string)
    requires s.Valid()
    ensures Delete(DeleteAll(s, gone), name) == DeleteAll(s, gone + {name})
  {
    DeleteAllTwice(s, gone, {name});
  }

  /** Deleting `h` after `g` is deleting both. */
  lemma DeleteAllTwice(s: Storage, g: set<string>, h: set<string>)
    requires s.Valid()
    ensures DeleteAll(DeleteAll(s, g), h) == DeleteAll(s, g + h)
  {
    RemoveAllTwice(s.names, g, h);
    assert s.caches - g - h == s.caches - (g + h);
  }
}
