/**
 * Resume filtering (update_downloading_status): the (url, outpath) pairs of a
 * batch are walked in order against the counter of urls found in the log; a
 * pair whose url still has a positive count is dropped and uses up one count,
 * every other pair is kept.
 */
module Resume {
  import opened Seqs

  /** One unit of work: a url and the path its content is saved to. */
  datatype Item = Item(url: string, outpath: string)

  /** Python's zip: pairs up the two lists, stopping at the shorter one. */
  function Zip(urls: seq<string>, outpaths: seq<string>): seq<Item> {
    var n := if |urls| < |outpaths| then |urls| else |outpaths|;
    seq(n, i requires 0 <= i < n => Item(urls[i], outpaths[i]))
  }

  function Urls(items: seq<Item>): seq<string> {
    seq(|items|, i requires 0 <= i < |items| => items[i].url)
  }

  function Outpaths(items: seq<Item>): seq<string> {
    seq(|items|, i requires 0 <= i < |items| => items[i].outpath)
  }

  /** `a - b`, or 0 when `b` exceeds `a`. */
  function Monus(a: nat, b: nat): nat {
    if a > b then a - b else 0
  }

  /**
   * The items still to download: each item whose url has a positive count in
   * `downloaded` is dropped and uses up one count of it.
   */
  function Pending(items: seq<Item>, downloaded: multiset<string>): seq<Item> {
    if items == [] then []
    else if items[0].url in downloaded then Pending(items[1..], downloaded - multiset{items[0].url})
    else [items[0]] + Pending(items[1..], downloaded)
  }

  /** Reference for the distinct-url case: keep exactly the items whose url was never logged. */
  function Unlogged(items: seq<Item>, downloaded: multiset<string>): seq<Item> {
    if items == [] then []
    else if items[0].url in downloaded then Unlogged(items[1..], downloaded)
    else [items[0]] + Unlogged(items[1..], downloaded)
  }

  lemma UrlsCons(it: Item, items: seq<Item>)
    ensures Urls([it] + items) == [it.url] + Urls(items)
  {
  }

  lemma UrlsTail(items: seq<Item>)
    requires items != []
    ensures Urls(items) == [items[0].url] + Urls(items[1..])
  {
  }

  lemma DistinctTail(items: seq<Item>)
    requires items != [] && NoDup(Urls(items))
    ensures Urls(items) == [items[0].url] + Urls(items[1..])
    ensures NoDup(Urls(items[1..])) && items[0].url !in Urls(items[1..])
  {
    var us, rs := Urls(items), Urls(items[1..]);
    assert forall i :: 0 <= i < |rs| ==> rs[i] == us[i + 1];
    forall j | 0 <= j < |rs| ensures rs[j] != us[0] {
      assert us[j + 1] != us[0];
    }
  }

  /** The unzipped lists put back together give the items again, two lists of one length. */
  lemma ZipUnzip(items: seq<Item>)
    ensures |Urls(items)| == |Outpaths(items)|
    ensures Zip(Urls(items), Outpaths(items)) == items
  {
  }

  /** Zipping two lists of one length and unzipping gives them back. */
  lemma UnzipZip(urls: seq<string>, outpaths: seq<string>)
    requires |urls| == |outpaths|
    ensures Urls(Zip(urls, outpaths)) == urls && Outpaths(Zip(urls, outpaths)) == outpaths
  {
  }

  /** The kept pairs are the input pairs with some removed, in their original order. */
  lemma {:induction false} PendingIsSubsequence(items: seq<Item>, downloaded: multiset<string>)
    ensures IsSubsequence(Pending(items, downloaded), items)
    decreases |items|
  {
    if items != [] {
      var rest := items[1..];
      if items[0].url in downloaded {
        PendingIsSubsequence(rest, downloaded - multiset{items[0].url});
      } else {
        PendingIsSubsequence(rest, downloaded);
        assert ([items[0]] + Pending(rest, downloaded))[1..] == Pending(rest, downloaded);
      }
    }
  }

  /**
   * Filtering is one-for-one, not by presence: of every url, the kept pairs
   * hold as many as the input held minus the log's count, and never fewer than none.
   */
  lemma {:induction false} PendingCount(items: seq<Item>, downloaded: multiset<string>, u: string)
    ensures multiset(Urls(Pending(items, downloaded)))[u]
         == Monus(multiset(Urls(items))[u], downloaded[u])
    decreases |items|
  {
    if items == [] {
      assert Urls(items) == [];
    } else {
      var v, rest := items[0].url, items[1..];
      UrlsTail(items);
      if v in downloaded {
        PendingCount(rest, downloaded - multiset{v}, u);
      } else {
        PendingCount(rest, downloaded, u);
        UrlsCons(items[0], Pending(rest, downloaded));
      }
    }
  }

  /** Every url the filter keeps was in the input. */
  lemma PendingUrlsFromInput(items: seq<Item>, downloaded: multiset<string>, u: string)
    requires u in Urls(Pending(items, downloaded))
    ensures u in Urls(items)
  {
    PendingCount(items, downloaded, u);
  }

  /** Every outpath the filter keeps was in the input. */
  lemma {:induction false} PendingOutpathsFromInput(items: seq<Item>, downloaded: multiset<string>, p: string)
    requires p in Outpaths(Pending(items, downloaded))
    ensures p in Outpaths(items)
    decreases |items|
  {
    if items != [] {
      var it, rest := items[0], items[1..];
      assert Outpaths(items) == [it.outpath] + Outpaths(rest);
      if it.url in downloaded {
        PendingOutpathsFromInput(rest, downloaded - multiset{it.url}, p);
      } else if p != it.outpath {
        var q := Pending(rest, downloaded);
        assert Outpaths([it] + q) == [it.outpath] + Outpaths(q);
        PendingOutpathsFromInput(rest, downloaded, p);
      }
    }
  }

  /** Filtering keeps a batch free of duplicate urls. */
  lemma {:induction false} PendingNoDup(items: seq<Item>, downloaded: multiset<string>)
    requires NoDup(Urls(items))
    ensures NoDup(Urls(Pending(items, downloaded)))
    decreases |items|
  {
    if items != [] {
      var v, rest := items[0].url, items[1..];
      DistinctTail(items);
      if v in downloaded {
        PendingNoDup(rest, downloaded - multiset{v});
      } else {
        PendingNoDup(rest, downloaded);
        var p := Pending(rest, downloaded);
        UrlsCons(items[0], p);
        assert v !in Urls(p) by {
          if v in Urls(p) {
            PendingUrlsFromInput(rest, downloaded, v);
          }
        }
      }
    }
  }

  /**
   * Filtering against one log and then against further entries is filtering
   * against both at once: resuming in several steps drops the same pairs.
   */
  lemma {:induction false} PendingCompose(items: seq<Item>, a: multiset<string>, b: multiset<string>)
    ensures Pending(Pending(items, a), b) == Pending(items, a + b)
    decreases |items|
  {
    if items != [] {
      var v, rest := items[0].url, items[1..];
      if v in a {
        PendingCompose(rest, a - multiset{v}, b);
        assert a - multiset{v} + b == a + b - multiset{v};
      } else {
        var p := Pending(rest, a);
        assert ([items[0]] + p)[0] == items[0] && ([items[0]] + p)[1..] == p;
        if v in b {
          PendingCompose(rest, a, b - multiset{v});
          assert a + (b - multiset{v}) == a + b - multiset{v};
        } else {
          PendingCompose(rest, a, b);
        }
      }
    }
  }

  lemma {:induction false} UnloggedDependsOnPresence(items: seq<Item>, d1: multiset<string>, d2: multiset<string>)
    requires forall i :: 0 <= i < |items| ==> (items[i].url in d1 <==> items[i].url in d2)
    ensures Unlogged(items, d1) == Unlogged(items, d2)
    decreases |items|
  {
    if items != [] {
      UnloggedDependsOnPresence(items[1..], d1, d2);
    }
  }

  /**
   * With distinct urls (as batch construction guarantees) the one-for-one
   * filter keeps exactly the pairs whose url is absent from the log.
   */
  lemma {:induction false} PendingOfDistinct(items: seq<Item>, downloaded: multiset<string>)
    requires NoDup(Urls(items))
    ensures Pending(items, downloaded) == Unlogged(items, downloaded)
    decreases |items|
  {
    if items != [] {
      var v, rest := items[0].url, items[1..];
      DistinctTail(items);
      if v in downloaded {
        var fewer := downloaded - multiset{v};
        PendingOfDistinct(rest, fewer);
        forall i | 0 <= i < |rest|
          ensures rest[i].url in fewer <==> rest[i].url in downloaded
        {
          assert Urls(items)[i + 1] == rest[i].url && Urls(items)[0] == v;
          assert rest[i].url != v;
        }
        UnloggedDependsOnPresence(rest, fewer, downloaded);
      } else {
        PendingOfDistinct(rest, downloaded);
      }
    }
  }

  lemma {:induction false} UnloggedMembers(items: seq<Item>, downloaded: multiset<string>)
    ensures forall it :: it in Unlogged(items, downloaded) <==> it in items && it.url !in downloaded
    decreases |items|
  {
    if items != [] {
      UnloggedMembers(items[1..], downloaded);
      assert items == [items[0]] + items[1..];
    }
  }

  lemma {:induction false} UnloggedUrls(items: seq<Item>, downloaded: multiset<string>)
    ensures forall u :: u in Urls(Unlogged(items, downloaded)) <==> u in Urls(items) && u !in downloaded
    decreases |items|
  {
    if items != [] {
      UnloggedUrls(items[1..], downloaded);
      UrlsTail(items);
      UrlsCons(items[0], Unlogged(items[1..], downloaded));
    } else {
      assert Urls(items) == [];
    }
  }

  /**
   * With distinct urls, a pair (and its url) is still pending exactly when it
   * was in the batch and its url is absent from the log.
   */
  lemma DistinctPendingMembers(items: seq<Item>, downloaded: multiset<string>)
    requires NoDup(Urls(items))
    ensures forall it :: it in Pending(items, downloaded) <==> it in items && it.url !in downloaded
    ensures forall u :: u in Urls(Pending(items, downloaded)) <==> u in Urls(items) && u !in downloaded
  {
    PendingOfDistinct(items, downloaded);
    UnloggedMembers(items, downloaded);
    UnloggedUrls(items, downloaded);
  }

  /**
   * Re-running the filter against the same log, as get_num_urls_needed does,
   * changes nothing when the urls are distinct.
   */
  lemma PendingIdempotent(items: seq<Item>, downloaded: multiset<string>)
    requires NoDup(Urls(items))
    ensures Pending(Pending(items, downloaded), downloaded) == Pending(items, downloaded)
  {
    PendingCompose(items, downloaded, downloaded);
    PendingOfDistinct(items, downloaded + downloaded);
    PendingOfDistinct(items, downloaded);
    UnloggedDependsOnPresence(items, downloaded + downloaded, downloaded);
  }

  /**
   * Counterexample to idempotence without distinct urls: the url "a" listed
   * twice against a log holding it once is kept once, then dropped.
   */
  lemma PendingNotIdempotentWithDuplicates()
    ensures var items := [Item("a", "f1"), Item("a", "f2")];
            Pending(items, multiset{"a"}) == [Item("a", "f2")] &&
            Pending(Pending(items, multiset{"a"}), multiset{"a"}) == []
  {
    var items := [Item("a", "f1"), Item("a", "f2")];
    assert multiset{"a"} - multiset{"a"} == multiset{};
    assert items[1..] == [Item("a", "f2")];
    assert Pending([Item("a", "f2")], multiset{}) == [Item("a", "f2")] by {
      assert [Item("a", "f2")][1..] == [];
    }
  }

  /**
   * The loop of update_downloading_status: walk the pairs in order with a
   * mutable counter, dropping a pair and decrementing its count while the
   * count is positive, and collecting the rest.
   */
  method FilterPending(urls: seq<string>, outpaths: seq<string>, downloaded: multiset<string>)
    returns (keptUrls: seq<string>, keptPaths: seq<string>)
    ensures keptUrls == Urls(Pending(Zip(urls, outpaths), downloaded))
    ensures keptPaths == Outpaths(Pending(Zip(urls, outpaths), downloaded))
  {
    var pairs := Zip(urls, outpaths);
    var counter := downloaded;
    var tmp: seq<Item> := [];
    var i := 0;
    while i < |pairs|
      invariant 0 <= i <= |pairs|
      invariant tmp + Pending(pairs[i..], counter) == Pending(pairs, downloaded)
    {
      var it := pairs[i];
      assert pairs[i..][0] == it && pairs[i..][1..] == pairs[i + 1..];
      if it.url in counter {
        counter := counter - multiset{it.url};
      } else {
        tmp := tmp + [it];
      }
      i := i + 1;
    }
    keptUrls := seq(|tmp|, k requires 0 <= k < |tmp| => tmp[k].url);
    keptPaths := seq(|tmp|, k requires 0 <= k < |tmp| => tmp[k].outpath);
  }
}
