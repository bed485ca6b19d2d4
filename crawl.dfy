/**
 * The crawl command: index/cmd/crawl.go. For one page: the filter, validation
 * and dedup decision for every link found on it, the document written to the
 * store, and the confirmation asked before re-crawling a stored seed URL.
 *
 * The goroutine started per link is modelled as one sequential step per link,
 * in the order the links were found. The network, the document store, the
 * HTML collector and the clock are the fields of an `Env`.
 */
module Crawl {
  import opened Text
  import opened Values
  import Nlp

  /** Outcome of `http.Get` plus `io.ReadAll` of a page. */
  datatype Fetch = RequestFailed | ReadFailed | Body(content: string)

  /** Outcome of the `client.Get(link)` probe in `validateLink`. */
  datatype Probe = TransportError | Response(status: int)

  /** Outcome of `CountDocuments({url: ...})`. */
  datatype CountReply = CountFailed | Counted(count: int)

  /** Everything the crawl reads from outside, as functions of the URL asked
      about. Each is taken to answer the same way every time it is asked. */
  datatype Env = Env(
    fetch: string -> Fetch,                  // the page request in execute
    anchors: string -> seq<string>,          // the `href`s that Split collects
    elements: string -> seq<Nlp.Element>,    // what the indexing collector matches
    normalise: seq<string> -> Normalised,    // the external normaliser
    probe: string -> Probe,                  // validateLink's request
    countDocuments: string -> CountReply,    // check_exsistence's count query
    referencing: string -> seq<Value>,       // get_references' Find({seen: url})
    now: string)                             // time.Now().Format(time.DateOnly)

  /** The filter applied to a raw `href` before anything is asked about it. */
  predicate Excluded(link: string) {
    HasSuffix(link, ".js") || HasSuffix(link, ".svg") || HasSuffix(link, ".css") ||
    HasSuffix(link, ".json") || HasPrefix(link, "#")
  }

  /** A link is live when its probe gets a response with status below 400. */
  predicate Live(env: Env, link: string) {
    env.probe(link).Response? && env.probe(link).status < 400
  }

  /** A URL is already stored when the count query succeeds with a positive count. */
  predicate Stored(env: Env, link: string) {
    env.countDocuments(link).Counted? && env.countDocuments(link).count > 0
  }

  /** `validateLink`. */
  method ValidateLink(env: Env, link: string) returns (ok: bool)
    ensures ok <==> env.probe(link).Response? && env.probe(link).status < 400
  {
    var resp := env.probe(link);
    if resp.TransportError? {
      return false;
    }
    return resp.status < 400;
  }

  /** `check_exsistence`: false when the count query fails. */
  method CheckExistence(env: Env, url: string) returns (found: bool)
    ensures found <==> env.countDocuments(url).Counted? && env.countDocuments(url).count > 0
    ensures env.countDocuments(url).CountFailed? ==> !found
  {
    var count := env.countDocuments(url);
    if count.CountFailed? {
      return false;
    }
    return count.count > 0;
  }

  // ---------------------------------------------------------------------------
  // The link loop of getLinks, as a function of its state

  /** What the link loop reads and writes: the global cache and this page's
      `seen` list. */
  datatype LinkState = LinkState(cache: set<string>, seen: seq<string>)

  /** The condition under which a link is appended to `seen`. */
  predicate Admit(env: Env, s: LinkState, link: string) {
    !Excluded(link) && Live(env, link) && link !in s.cache && !Stored(env, link) && link !in s.seen
  }

  function Step(env: Env, s: LinkState, link: string): LinkState {
    if Admit(env, s, link) then LinkState(s.cache + {link}, s.seen + [link]) else s
  }

  /** The state after every link has had its step, in order. */
  function Run(env: Env, s: LinkState, links: seq<string>): LinkState
  {
    if links == [] then s
    else Step(env, Run(env, s, links[..|links| - 1]), links[|links| - 1])
  }

  /** The links `validateLink` is called on: those the filter lets through. */
  function Probed(links: seq<string>): seq<string>
  {
    if links == [] then []
    else Probed(links[..|links| - 1]) + (if Excluded(links[|links| - 1]) then [] else [links[|links| - 1]])
  }

  predicate SeenCached(s: LinkState) {
    forall x :: x in s.seen ==> x in s.cache
  }

  /** `seen` only grows at its end; every link in `seen` is also in the
      cache. */
  lemma {:induction false} RunGrows(env: Env, s: LinkState, links: seq<string>)
    requires SeenCached(s)
    ensures |s.seen| <= |Run(env, s, links).seen| && Run(env, s, links).seen[..|s.seen|] == s.seen
    ensures SeenCached(Run(env, s, links))
    decreases |links|
  {
    if links != [] {
      var prev := Run(env, s, links[..|links| - 1]);
      RunGrows(env, s, links[..|links| - 1]);
      if Admit(env, prev, links[|links| - 1]) {
        assert (prev.seen + [links[|links| - 1]])[..|s.seen|] == prev.seen[..|s.seen|];
      }
    }
  }

  /** An excluded link never enters `seen` or the cache. */
  lemma {:induction false} RunFilter(env: Env, s: LinkState, links: seq<string>)
    ensures forall l :: Excluded(l) ==>
      (l in Run(env, s, links).seen <==> l in s.seen) &&
      (l in Run(env, s, links).cache <==> l in s.cache)
    decreases |links|
  {
    if links != [] {
      RunFilter(env, s, links[..|links| - 1]);
    }
  }

  /** A link is appended only if it passed the filter, validated, was not in
      the cache, was not stored and is one of the page's links; afterwards it
      is in the cache. */
  lemma {:induction false} RunAdmitted(env: Env, s: LinkState, links: seq<string>)
    ensures forall x :: x in Run(env, s, links).seen && x !in s.seen ==>
      && !Excluded(x) && Live(env, x) && !Stored(env, x)
      && x !in s.cache && x in Run(env, s, links).cache && x in links
    decreases |links|
  {
    if links != [] {
      var init := links[..|links| - 1];
      RunAdmitted(env, s, init);
      assert forall x :: x in init ==> x in links;
      assert links[|links| - 1] in links;
      RunCacheGrows(env, s, init);
    }
  }

  /** The cache only grows. */
  lemma {:induction false} RunCacheGrows(env: Env, s: LinkState, links: seq<string>)
    ensures s.cache <= Run(env, s, links).cache
    decreases |links|
  {
    if links != [] {
      RunCacheGrows(env, s, links[..|links| - 1]);
    }
  }

  /** Processed in order, the steps never put a link into `seen` twice. */
  lemma {:induction false} RunDistinct(env: Env, s: LinkState, links: seq<string>)
    requires Distinct(s.seen)
    ensures Distinct(Run(env, s, links).seen)
    decreases |links|
  {
    if links != [] {
      var prev := Run(env, s, links[..|links| - 1]);
      RunDistinct(env, s, links[..|links| - 1]);
      var l := links[|links| - 1];
      if Admit(env, prev, l) {
        var r := prev.seen + [l];
        forall i, j | 0 <= i < j < |r| ensures r[i] != r[j] {
          if j == |r| - 1 {
            assert r[i] == prev.seen[i] && prev.seen[i] in prev.seen;
          }
        }
      }
    }
  }

  /** Every link of the page that passes the filter, validates and is not
      stored ends up in the cache: appended now, or met before. */
  lemma {:induction false} RunComplete(env: Env, s: LinkState, links: seq<string>)
    requires SeenCached(s)
    ensures forall l :: l in links && !Excluded(l) && Live(env, l) && !Stored(env, l) ==>
      l in Run(env, s, links).cache
    decreases |links|
  {
    if links != [] {
      var init := links[..|links| - 1];
      RunComplete(env, s, init);
      RunGrows(env, s, init);
      assert links == init + [links[|links| - 1]];
    }
  }

  /** `validateLink` is never called on an excluded link. */
  lemma {:induction false} ProbedNeverExcluded(links: seq<string>)
    ensures forall l :: l in Probed(links) ==> l in links && !Excluded(l)
    decreases |links|
  {
    if links != [] {
      ProbedNeverExcluded(links[..|links| - 1]);
      assert forall x :: x in links[..|links| - 1] ==> x in links;
      assert links[|links| - 1] in links;
    }
  }

  // ---------------------------------------------------------------------------
  // References and the stored document

  /** The url of every referencing document that has a string url, in order. */
  function UrlsOf(docs: seq<Value>): (r: seq<string>)
    ensures |r| <= |docs|
    ensures forall u :: u in r ==> exists i :: 0 <= i < |docs| && StringField(docs[i], "url") == Some(u)
  {
    if docs == [] then []
    else
      var init := docs[..|docs| - 1];
      var prev := UrlsOf(init);
      assert forall u :: u in prev ==> exists i :: 0 <= i < |docs| && StringField(docs[i], "url") == Some(u) by {
        forall u | u in prev ensures exists i :: 0 <= i < |docs| && StringField(docs[i], "url") == Some(u) {
          var i :| 0 <= i < |init| && StringField(init[i], "url") == Some(u);
          assert docs[i] == init[i];
        }
      }
      match StringField(docs[|docs| - 1], "url")
      case Some(u) => prev + [u]
      case None => prev
  }

  /** `get_references`, from the documents whose `seen` holds the URL. */
  method GetReferences(docs: seq<Value>) returns (listRef: seq<string>)
    ensures listRef == UrlsOf(docs)
  {
    listRef := [];
    for i := 0 to |docs|
      invariant listRef == UrlsOf(docs[..i])
    {
      assert docs[..i + 1][..i] == docs[..i];
      var jsonMap := docs[i];
      if jsonMap.Obj? && "url" in jsonMap.fields && jsonMap.fields["url"].Str? {
        listRef := listRef + [jsonMap.fields["url"].s];
      }
    }
    assert docs[..|docs|] == docs;
  }

  /** A BSON value of the documents the crawl writes. A nil Go slice is
      stored as null, an empty non-nil one as an empty array. */
  datatype Bson = BNull | BStr(s: string) | BList(items: seq<string>) | BCounts(counts: map<string, int>)

  /** The BSON of `list_ref`: it stays nil until a url is appended. */
  function References(refs: seq<string>): (b: Bson)
    ensures b.BNull? <==> refs == []
    ensures b.BList? ==> b.items == refs
  {
    if refs == [] then BNull else BList(refs)
  }

  /** `InsertOne(doc)` or `UpdateOne(filter, {$set: fields})`. */
  datatype StoreWrite =
    | InsertOne(doc: map<string, Bson>)
    | UpdateOne(filter: map<string, Bson>, fields: map<string, Bson>)

  /** The write that ends `getLinks`: a full document in insert mode; in update
      mode only `seen` and `time`, for the document with this url. */
  function Persist(update: bool, url: string, seen: seq<string>, time: string,
                   index: map<string, int>, references: seq<string>): (w: StoreWrite)
    ensures !update ==> w.InsertOne? && w.doc.Keys == {"url", "seen", "time", "index", "references"}
    ensures update ==> w.UpdateOne? && w.filter.Keys == {"url"} && w.fields.Keys == {"seen", "time"}
    ensures w.InsertOne? ==>
      && w.doc["url"] == BStr(url) && w.doc["seen"] == BList(seen)
      && w.doc["time"] == BStr(time) && w.doc["index"] == BCounts(index)
      && w.doc["references"] == References(references)
    ensures w.UpdateOne? ==>
      && w.filter["url"] == BStr(url) && w.fields["seen"] == BList(seen)
      && w.fields["time"] == BStr(time)
  {
    if !update then
      InsertOne(map["url" := BStr(url), "seen" := BList(seen), "time" := BStr(time),
                    "index" := BCounts(index), "references" := References(references)])
    else
      UpdateOne(map["url" := BStr(url)], map["seen" := BList(seen), "time" := BStr(time)])
  }

  // ---------------------------------------------------------------------------
  // The mutable state

  /** The package-level state of the crawl command: the `update` flag and the
      URL cache (a `sync.Map` whose stored values are all `true`), with a log
      of the links `validateLink` was called on. */
  class CrawlState {
    var update: bool
    var cache: set<string>
    ghost var probed: seq<string>

    constructor (update: bool)
      ensures this.update == update && cache == {} && probed == []
    {
      this.update := update;
      cache := {};
      probed := [];
    }

    /** The check before crawling the seed (the body of `crawl` up to the call
        of `execute`): with an existing entry and `update` off, crawling goes
        on, in update mode, only when the answer read is one of "y", "Y",
        "yes", "YES" up to surrounding white space. */
    method ConfirmSeed(results: seq<Value>, answer: ReadLine) returns (proceed: bool)
      modifies this`update
      ensures proceed <==> Proceeds(old(update), results, answer)
      ensures update <==> old(update) || (|results| > 0 && proceed)
    {
      if !update {
        if |results| > 0 {
          var first := results[0];
          if !(first.Obj? && "url" in first.fields && first.fields["url"].Str?) {
            return false;
          }
          if answer.ReadFailed? {
            return false;
          }
          var res := TrimSpace(answer.text);
          if res != "y" && res != "Y" && res != "yes" && res != "YES" {
            return false;
          }
          update := true;
        }
      }
      return true;
    }
  }

  /** A line read from standard input, or the read error. */
  datatype ReadLine = ReadFailed | Line(text: string)

  /** When `crawl` goes on to `execute`: the update flag is set, or the seed
      is not stored yet, or its stored entry has a string url and the answer
      read confirms. */
  predicate Proceeds(update: bool, results: seq<Value>, answer: ReadLine) {
    update || |results| == 0 ||
    (StringField(results[0], "url").Some? && answer.Line? && Confirms(answer.text))
  }

  /** The answers that confirm an update. */
  predicate Confirms(answer: string) {
    var res := TrimSpace(answer);
    res == "y" || res == "Y" || res == "yes" || res == "YES"
  }

  predicate AllSpace(s: string) {
    forall i :: 0 <= i < |s| ==> IsSpace(s[i])
  }

  lemma {:induction false} TrimLeftSpaces(pad: string, w: string)
    requires AllSpace(pad) && (w == [] || !IsSpace(w[0]))
    ensures TrimLeft(pad + w) == w
    decreases |pad|
  {
    if pad == [] {
      assert pad + w == w;
    } else {
      assert (pad + w)[1..] == pad[1..] + w;
      TrimLeftSpaces(pad[1..], w);
    }
  }

  lemma {:induction false} TrimRightSpaces(w: string, pad: string)
    requires AllSpace(pad) && (w == [] || !IsSpace(w[|w| - 1]))
    ensures TrimRight(w + pad) == w
    decreases |pad|
  {
    if pad == [] {
      assert w + pad == w;
    } else {
      assert (w + pad)[..|w + pad| - 1] == w + pad[..|pad| - 1];
      TrimRightSpaces(w, pad[..|pad| - 1]);
    }
  }

  /** An accepted answer surrounded by any white space, such as the newline
      `ReadString` keeps, still confirms. */
  lemma ConfirmsPadded(before: string, answer: string, after: string)
    requires AllSpace(before) && AllSpace(after)
    requires answer == "y" || answer == "Y" || answer == "yes" || answer == "YES"
    ensures Confirms(before + answer + after)
  {
    assert answer[0] == 'y' || answer[0] == 'Y';
    assert answer[|answer| - 1] in "yYsS";
    assert !IsSpace(answer[0]) && !IsSpace(answer[|answer| - 1]);
    assert (answer + after)[0] == answer[0];
    assert before + answer + after == before + (answer + after);
    TrimLeftSpaces(before, answer + after);
    TrimRightSpaces(answer, after);
  }

  /** Other capitalisations are refused. */
  lemma RefusesMixedCase()
    ensures !Confirms("Yes") && !Confirms("yES")
  {
    assert !IsSpace("Yes"[0]) && !IsSpace("Yes"[2]);
    assert TrimLeft("Yes") == "Yes";
    assert TrimRight("Yes") == "Yes";
    assert "Yes"[0] != "yes"[0] && "Yes"[1] != "YES"[1];
    assert !IsSpace("yES"[0]) && !IsSpace("yES"[2]);
    assert TrimLeft("yES") == "yES";
    assert TrimRight("yES") == "yES";
    assert "yES"[0] != "YES"[0] && "yES"[1] != "yes"[1];
  }

  /** One crawled page: its URL and the map whose entry for that URL lists the
      links found on it. */
  class Page {
    const url: string
    var seen: map<string, seq<string>>

    constructor (url: string)
      ensures this.url == url && seen == map[]
    {
      this.url := url;
      seen := map[];
    }

    /** `page.seen[page.url]`, nil (empty) while unset. */
    function Seen(): seq<string>
      reads this
    {
      if url in seen then seen[url] else []
    }

    /** `is_duplicate`. */
    method IsDuplicate(u: string) returns (dup: bool)
      ensures dup <==> u in Seen()
    {
      var list := if url in seen then seen[url] else [];
      dup := u in list;
    }

    /** The goroutine run for one link of the page. */
    method VisitLink(st: CrawlState, env: Env, word: string)
      requires url in seen
      modifies this, st
      ensures var r := Step(env, LinkState(old(st.cache), old(Seen())), word);
        seen == old(seen)[url := r.seen] && st.cache == r.cache
      ensures st.update == old(st.update)
      ensures st.probed == old(st.probed) + (if Excluded(word) then [] else [word])
    {
      if HasSuffix(word, ".js") || HasSuffix(word, ".svg") || HasSuffix(word, ".css") ||
         HasSuffix(word, ".json") || HasPrefix(word, "#") {
        assert seen == seen[url := Seen()];
        return;
      }
      st.probed := st.probed + [word];
      var ok := ValidateLink(env, word);
      if !ok {
        assert seen == seen[url := Seen()];
        return;
      }
      var cached := word in st.cache;
      var stored := false;
      var dup := false;
      if !cached {
        stored := CheckExistence(env, word);
        if !stored {
          dup := IsDuplicate(word);
        }
      }
      if !cached && !stored && !dup {
        seen := seen[url := seen[url] + [word]];
        st.cache := st.cache + {word};
      } else {
        assert seen == seen[url := Seen()];
      }
    }

    /** The loop of `getLinks` over the page's links, one task per link. */
    method VisitLinks(st: CrawlState, env: Env, body: seq<string>)
      requires url in seen
      modifies this, st
      ensures var r := Run(env, LinkState(old(st.cache), old(seen[url])), body);
        seen == old(seen)[url := r.seen] && st.cache == r.cache
      ensures st.update == old(st.update)
      ensures st.probed == old(st.probed) + Probed(body)
    {
      ghost var s0 := LinkState(st.cache, seen[url]);
      for i := 0 to |body|
        invariant url in seen && seen == old(seen)[url := seen[url]]
        invariant LinkState(st.cache, seen[url]) == Run(env, s0, body[..i])
        invariant st.update == old(st.update)
        invariant st.probed == old(st.probed) + Probed(body[..i])
      {
        assert body[..i + 1][..i] == body[..i];
        assert Run(env, s0, body[..i + 1]) == Step(env, Run(env, s0, body[..i]), body[i]);
        VisitLink(st, env, body[i]);
      }
      assert body[..|body|] == body;
    }

    /** `getLinks`: reset `seen`, index the page and look up its references,
        run every link's step, then build the store write. */
    method GetLinks(st: CrawlState, env: Env) returns (write: StoreWrite)
      modifies this, st
      ensures var r := Run(env, LinkState(old(st.cache), []), env.anchors(url));
        seen == old(seen)[url := r.seen] && st.cache == r.cache
      ensures st.update == old(st.update)
      ensures st.probed == old(st.probed) + Probed(env.anchors(url))
      ensures write == Persist(st.update, url, Seen(), env.now,
                               Nlp.PageIndex(env.elements(url), env.normalise),
                               UrlsOf(env.referencing(url)))
    {
      var body := env.anchors(url);
      seen := seen[url := []];
      var index := Nlp.NlpIndex(env.elements(url), env.normalise);
      var references := GetReferences(env.referencing(url));
      VisitLinks(st, env, body);
      write := Persist(st.update, url, seen[url], env.now, index, references);
    }
  }

  /** `execute`: fetch the page, and when that succeeds crawl it. The fetched
      body itself is not used: the links and the index come from visiting the
      URL again. */
  method Execute(st: CrawlState, env: Env, target: string) returns (write: Option<StoreWrite>)
    modifies st
    ensures write.Some? <==> env.fetch(target).Body?
    ensures !env.fetch(target).Body? ==> st.cache == old(st.cache) && st.probed == old(st.probed)
    ensures env.fetch(target).Body? ==> st.probed == old(st.probed) + Probed(env.anchors(target))
    ensures st.update == old(st.update)
    ensures env.fetch(target).Body? ==>
      var r := Run(env, LinkState(old(st.cache), []), env.anchors(target));
      st.cache == r.cache &&
      write.value == Persist(st.update, target, r.seen, env.now,
                             Nlp.PageIndex(env.elements(target), env.normalise),
                             UrlsOf(env.referencing(target)))
  {
    var resp := env.fetch(target);
    if !resp.Body? {
      return None;
    }
    var page := new Page(target);
    var w := page.GetLinks(st, env);
    return Some(w);
  }

  /** How `crawl` ends: it stops before crawling; it waits forever at
      `wg.Wait()` because `execute` returned early without `wg.Done()`, which
      only `getLinks` calls; or the seed's document is written. */
  datatype CrawlOutcome = Stopped | Hangs | Wrote(write: StoreWrite)

  /** `crawl` after connecting: the seed check, then `execute` on the seed. */
  method Crawl(st: CrawlState, env: Env, startURL: string, results: seq<Value>, answer: ReadLine)
    returns (outcome: CrawlOutcome)
    modifies st
    ensures outcome.Stopped? <==> !Proceeds(old(st.update), results, answer)
    ensures outcome.Hangs? <==> Proceeds(old(st.update), results, answer) && !env.fetch(startURL).Body?
    ensures st.update <==> old(st.update) || (|results| > 0 && !outcome.Stopped?)
    ensures !outcome.Wrote? ==> st.cache == old(st.cache) && st.probed == old(st.probed)
    ensures outcome.Wrote? ==> st.probed == old(st.probed) + Probed(env.anchors(startURL))
    ensures outcome.Wrote? ==>
      var r := Run(env, LinkState(old(st.cache), []), env.anchors(startURL));
      st.cache == r.cache &&
      outcome.write == Persist(st.update, startURL, r.seen, env.now,
                               Nlp.PageIndex(env.elements(startURL), env.normalise),
                               UrlsOf(env.referencing(startURL)))
    ensures outcome.Wrote? && outcome.write.InsertOne? ==> !old(st.update) && |results| == 0
  {
    var proceed := st.ConfirmSeed(results, answer);
    if !proceed {
      return Stopped;
    }
    var write := Execute(st, env, startURL);
    match write {
      case None => outcome := Hangs;
      case Some(w) => outcome := Wrote(w);
    }
  }
}
