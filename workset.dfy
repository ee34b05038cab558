/**
 * Batch construction (URLDownloader.__init__): with explicit output names the
 * (url, name) pairs go through a dict, so each url is kept once, in the order
 * of its first occurrence, with the name of its last occurrence; without names
 * the urls go through a set and each one's output path comes from the url.
 */
module WorkSet {
  import opened Seqs

  /** posixpath.join with two components. */
  function Join(path: string, name: string): (r: string)
    ensures |name| > 0 && name[0] == '/' ==> r == name
    ensures !(|name| > 0 && name[0] == '/') ==>
      && |r| == |path| + |name| + (if path != [] && path[|path| - 1] != '/' then 1 else 0)
      && r[..|path|] == path && r[|r| - |name|..] == name
      && forall k :: |path| <= k < |r| - |name| ==> r[k] == '/'
  {
    if |name| > 0 && name[0] == '/' then name
    else if path == [] || path[|path| - 1] == '/' then path + name
    else path + "/" + name
  }

  /** A Python dict from url to name: keys in insertion order, and their values. */
  datatype Dict = Dict(keys: seq<string>, values: map<string, string>)

  /** `d[k] = v`: a new key goes to the end, an existing key keeps its place. */
  function Put(d: Dict, k: string, v: string): Dict {
    if k in d.values then Dict(d.keys, d.values[k := v])
    else Dict(d.keys + [k], d.values[k := v])
  }

  /** `{url: name for url, name in zip(urls, names)}`. */
  function FromPairs(urls: seq<string>, names: seq<string>): Dict
    requires |urls| == |names|
  {
    if urls == [] then Dict([], map[])
    else
      var n := |urls| - 1;
      Put(FromPairs(urls[..n], names[..n]), urls[n], names[n])
  }

  lemma FirstIndexOfPrefix(s: seq<string>, n: nat, x: string)
    requires n <= |s| && x in s[..n]
    ensures FirstIndex(s[..n], x) == FirstIndex(s, x)
  {
  }

  /** The dict's keys are the urls, each once, and they are also its domain. */
  lemma {:induction false} FromPairsKeys(urls: seq<string>, names: seq<string>)
    requires |urls| == |names|
    ensures var d := FromPairs(urls, names);
      && NoDup(d.keys)
      && (forall u :: u in d.keys <==> u in urls)
      && (forall u :: u in d.values <==> u in urls)
    decreases |urls|
  {
    if urls != [] {
      var n := |urls| - 1;
      FromPairsKeys(urls[..n], names[..n]);
      assert urls == urls[..n] + [urls[n]];
    }
  }

  /** Each url is mapped to the name paired with its last occurrence. */
  lemma {:induction false} FromPairsValues(urls: seq<string>, names: seq<string>)
    requires |urls| == |names|
    ensures var d := FromPairs(urls, names);
      forall u :: u in urls ==> u in d.values && d.values[u] == names[LastIndex(urls, u)]
    decreases |urls|
  {
    if urls != [] {
      var n := |urls| - 1;
      var pu, pn := urls[..n], names[..n];
      FromPairsValues(pu, pn);
      var d := FromPairs(urls, names);
      assert urls == pu + [urls[n]];
      forall u | u in urls ensures u in d.values && d.values[u] == names[LastIndex(urls, u)] {
        if u != urls[n] {
          assert u in pu;
          assert pn[LastIndex(pu, u)] == names[LastIndex(pu, u)];
        }
      }
    }
  }

  /** The dict's keys come in the order of their first occurrence among the urls. */
  lemma {:induction false} FromPairsOrder(urls: seq<string>, names: seq<string>)
    requires |urls| == |names|
    ensures var d := FromPairs(urls, names);
      && (forall u :: u in d.keys ==> u in urls)
      && forall i, j :: 0 <= i < j < |d.keys| ==> FirstIndex(urls, d.keys[i]) < FirstIndex(urls, d.keys[j])
    decreases |urls|
  {
    if urls != [] {
      var n := |urls| - 1;
      var pu, pn := urls[..n], names[..n];
      FromPairsOrder(pu, pn);
      FromPairsKeys(pu, pn);
      var d0 := FromPairs(pu, pn);
      forall x | x in d0.keys ensures FirstIndex(pu, x) == FirstIndex(urls, x) && FirstIndex(urls, x) < n {
        FirstIndexOfPrefix(urls, n, x);
      }
      if urls[n] !in d0.values {
        assert FirstIndex(urls, urls[n]) == n;
      }
    }
  }

  /** `list(set(urls))`: each url once, in an order the model fixes (Python's is unspecified). */
  function Distinct(urls: seq<string>): (r: seq<string>)
    ensures NoDup(r)
    ensures forall u :: u in r <==> u in urls
  {
    if urls == [] then []
    else
      var n := |urls| - 1;
      var r := Distinct(urls[..n]);
      assert urls == urls[..n] + [urls[n]];
      if urls[n] in r then r else r + [urls[n]]
  }

  /** The url list and the output path list of a batch. */
  datatype Batch = Batch(urls: seq<string>, outpaths: seq<string>)

  /** The constructor's result: a batch, or the AssertionError of unequal lengths. */
  datatype Result = Ok(batch: Batch) | LengthMismatch

  /**
   * The url and output-path lists __init__ computes. An empty `outnames`
   * stands for both `None` and `[]`, which `if outname_list:` treats alike;
   * `outpathFromUrl` is get_outpath_from_url with the output folder fixed.
   */
  function Build(urls: seq<string>, outnames: seq<string>, outPath: string,
                 outpathFromUrl: string -> string): (r: Result)
    ensures r.LengthMismatch? <==> outnames != [] && |urls| != |outnames|
    ensures r.Ok? ==> NoDup(r.batch.urls) && |r.batch.urls| == |r.batch.outpaths|
    ensures r.Ok? ==> forall u :: u in r.batch.urls <==> u in urls
    ensures r.Ok? && outnames != [] ==>
      forall i :: 0 <= i < |r.batch.urls| ==>
        r.batch.outpaths[i] == Join(outPath, outnames[LastIndex(urls, r.batch.urls[i])])
    ensures r.Ok? && outnames != [] ==>
      forall i, j :: 0 <= i < j < |r.batch.urls| ==>
        FirstIndex(urls, r.batch.urls[i]) < FirstIndex(urls, r.batch.urls[j])
    ensures r.Ok? && outnames == [] ==>
      forall i :: 0 <= i < |r.batch.urls| ==> r.batch.outpaths[i] == outpathFromUrl(r.batch.urls[i])
  {
    if outnames != [] then
      if |urls| != |outnames| then LengthMismatch
      else
        var d := FromPairs(urls, outnames);
        FromPairsKeys(urls, outnames);
        FromPairsValues(urls, outnames);
        FromPairsOrder(urls, outnames);
        var names := seq(|d.keys|, i requires 0 <= i < |d.keys| => d.values[d.keys[i]]);
        Ok(Batch(d.keys, seq(|names|, i requires 0 <= i < |names| => Join(outPath, names[i]))))
    else
      var us := Distinct(urls);
      Ok(Batch(us, seq(|us|, i requires 0 <= i < |us| => outpathFromUrl(us[i]))))
  }

  /**
   * Explicit names do not keep duplicate urls: ["a", "a"] named ["f1", "f2"]
   * under "out" gives the single pair ("a", "out/f2").
   */
  lemma ExplicitNamesCollapseDuplicates(outpathFromUrl: string -> string)
    ensures Build(["a", "a"], ["f1", "f2"], "out", outpathFromUrl)
         == Ok(Batch(["a"], ["out/f2"]))
  {
    assert ["a", "a"][..1] == ["a"] && ["f1", "f2"][..1] == ["f1"];
    assert ["a"][..0] == [] && ["f1"][..0] == [];
    var d := FromPairs(["a", "a"], ["f1", "f2"]);
    assert d == Dict(["a"], map["a" := "f2"]);
    assert Join("out", "f2") == "out/f2";
  }
}
