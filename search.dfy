/**
 * The search command: cmd/search.go. Query tokenisation with its fallback,
 * overlap scoring of every stored document, and the selection of the URLs to
 * show.
 *
 * Stored documents reach the scoring loop as the `map[string]any` that
 * `json.Unmarshal` makes of their extended JSON; they are modelled as decoded
 * `Value`s. In such a value every index count is a JSON number and the list of
 * references is an `[]interface{}`.
 */
module Search {
  import opened Text
  import opened Values

  // ---------------------------------------------------------------------------
  // standardizeInput

  /** `standardizeInput`: the query's whitespace fields go to the normaliser;
      its token list is used when it printed one, the raw fields otherwise. */
  function StandardizeInput(query: string, normalise: seq<string> -> Normalised): (r: seq<string>)
    ensures normalise(Fields(query)).Tokens? ==> r == normalise(Fields(query)).tokens
    ensures !normalise(Fields(query)).Tokens? ==> r == Fields(query)
  {
    match normalise(Fields(query))
    case Tokens(ts) => ts
    case _ => Fields(query)
  }

  /** In the fallback the query tokens are its raw fields: non-empty, without
      white space, and neither lower-cased nor stripped of punctuation. */
  lemma FallbackTokens(query: string, normalise: seq<string> -> Normalised)
    requires !normalise(Fields(query)).Tokens?
    ensures forall t :: t in StandardizeInput(query, normalise) ==> t != "" && NoSpace(t)
  {
    FieldsWellFormed(query);
  }

  // ---------------------------------------------------------------------------
  // Contains and Count

  /** `Contains`: a linear scan that stops at the first equal item. */
  method Contains(slice: seq<string>, val: string) returns (found: bool)
    ensures found <==> val in slice
  {
    for i := 0 to |slice|
      invariant val !in slice[..i]
    {
      if slice[i] == val {
        return true;
      }
    }
    assert slice[..|slice|] == slice;
    return false;
  }

  /** Go's `int(num)` for a float64: truncation toward zero. */
  function Trunc(x: real): (n: int)
    ensures x >= 0.0 ==> n as real <= x < n as real + 1.0
    ensures x < 0.0 ==> n as real - 1.0 < x <= n as real
  {
    if x >= 0.0 then x.Floor else -((-x).Floor)
  }

  lemma TruncMonotone(x: real, y: real)
    requires x <= y
    ensures Trunc(x) <= Trunc(y)
  {
    if Trunc(x) > Trunc(y) {
      assert false;
    }
  }

  /** What one query token adds in `Count`: the truncated number stored under
      it, or 0 when the key is absent or its value is not a number. */
  function Weight(words: map<string, Value>, t: string): int {
    if t in words && words[t].Num? then Trunc(words[t].x) else 0
  }

  /** The sum of the weights of the query tokens, repetitions included. */
  function Overlap(tokens: seq<string>, words: map<string, Value>): int
  {
    if tokens == [] then 0
    else Overlap(tokens[..|tokens| - 1], words) + Weight(words, tokens[|tokens| - 1])
  }

  /** `Count`. */
  method Count(slice: seq<string>, words: map<string, Value>) returns (result: int)
    ensures result == Overlap(slice, words)
  {
    result := 0;
    for i := 0 to |slice|
      invariant result == Overlap(slice[..i], words)
    {
      assert slice[..i + 1][..i] == slice[..i];
      var item := slice[i];
      if item in words {
        var value := words[item];
        if value.Num? {
          result := result + Trunc(value.x);
        }
      }
    }
    assert slice[..|slice|] == slice;
  }

  /** A query none of whose tokens is a numeric key of the index scores 0. */
  lemma {:induction false} OverlapDisjoint(tokens: seq<string>, words: map<string, Value>)
    requires forall t :: t in tokens ==> t !in words || !words[t].Num?
    ensures Overlap(tokens, words) == 0
    decreases |tokens|
  {
    if tokens != [] {
      assert tokens[|tokens| - 1] in tokens;
      assert forall t :: t in tokens[..|tokens| - 1] ==> t in tokens;
      OverlapDisjoint(tokens[..|tokens| - 1], words);
    }
  }

  /** Pointwise larger weights give a larger overlap. */
  lemma {:induction false} OverlapMonotone(tokens: seq<string>, w1: map<string, Value>, w2: map<string, Value>)
    requires forall t :: Weight(w1, t) <= Weight(w2, t)
    ensures Overlap(tokens, w1) <= Overlap(tokens, w2)
    decreases |tokens|
  {
    if tokens != [] {
      OverlapMonotone(tokens[..|tokens| - 1], w1, w2);
    }
  }

  /** Raising a numeric index entry, or adding a non-negative entry that was
      absent, never lowers `Count`. */
  lemma RaiseEntry(tokens: seq<string>, words: map<string, Value>, k: string, x: real)
    requires (k in words && words[k].Num? && words[k].x <= x) || (k !in words && x >= 0.0)
    ensures Overlap(tokens, words) <= Overlap(tokens, words[k := Num(x)])
  {
    if k in words {
      TruncMonotone(words[k].x, x);
    }
    OverlapMonotone(tokens, words, words[k := Num(x)]);
  }

  // ---------------------------------------------------------------------------
  // The scoring loop of queryDatabase

  /** The index object of a decoded document, if it has one. */
  function IndexOf(doc: Value): Option<map<string, Value>> {
    if doc.Obj? && "index" in doc.fields && doc.fields["index"].Obj?
    then Some(doc.fields["index"].fields) else None
  }

  /** A document is scored under `url` when it has that string url, an object
      index, and a non-zero overlap with the query. */
  predicate Qualifies(doc: Value, url: string, tokens: seq<string>) {
    StringField(doc, "url") == Some(url) && IndexOf(doc).Some? &&
    Overlap(tokens, IndexOf(doc).value) != 0
  }

  /** The entry the loop body writes for one document, if any. */
  function Entry(doc: Value, tokens: seq<string>): Option<(string, int)> {
    match StringField(doc, "url")
    case None => None
    case Some(url) =>
      match IndexOf(doc)
      case None => None
      case Some(words) =>
        var similarity := Overlap(tokens, words);
        if similarity == 0 then None
        else if "references" in doc.fields && doc.fields["references"].GoStrings?
        then Some((url, similarity + |doc.fields["references"].strs|))
        else Some((url, similarity))
  }

  /** The `urls` map after the loop: later documents overwrite earlier ones
      with the same url. */
  function Scores(docs: seq<Value>, tokens: seq<string>): map<string, int>
  {
    if docs == [] then map[]
    else
      var prev := Scores(docs[..|docs| - 1], tokens);
      match Entry(docs[|docs| - 1], tokens)
      case Some(e) => prev[e.0 := e.1]
      case None => prev
  }

  lemma EntryQualifies(doc: Value, tokens: seq<string>)
    ensures Entry(doc, tokens).Some? ==> Qualifies(doc, Entry(doc, tokens).value.0, tokens)
    ensures forall u :: Qualifies(doc, u, tokens) ==> Entry(doc, tokens).Some? && Entry(doc, tokens).value.0 == u
  {
  }

  /** A url has a score exactly when some stored document qualifies under it;
      in particular a document with zero overlap never gets an entry, whatever
      its references. */
  lemma {:induction false} ScoredIff(docs: seq<Value>, tokens: seq<string>)
    ensures forall u :: u in Scores(docs, tokens) <==>
      exists i :: 0 <= i < |docs| && Qualifies(docs[i], u, tokens)
    decreases |docs|
  {
    if docs != [] {
      var init, last := docs[..|docs| - 1], docs[|docs| - 1];
      ScoredIff(init, tokens);
      EntryQualifies(last, tokens);
      forall u ensures u in Scores(docs, tokens) <==>
        exists i :: 0 <= i < |docs| && Qualifies(docs[i], u, tokens)
      {
        if exists i :: 0 <= i < |init| && Qualifies(init[i], u, tokens) {
          var i :| 0 <= i < |init| && Qualifies(init[i], u, tokens);
          assert docs[i] == init[i];
        }
        if exists i :: 0 <= i < |docs| && Qualifies(docs[i], u, tokens) {
          var i :| 0 <= i < |docs| && Qualifies(docs[i], u, tokens);
          if i < |init| {
            assert init[i] == docs[i];
          }
        }
      }
    }
  }

  /** A document as `json.Unmarshal` decodes it: no field holds a `[]string`. */
  predicate Decoded(doc: Value) {
    doc.Obj? ==> forall k :: k in doc.fields ==> !doc.fields[k].GoStrings?
  }

  /** For decoded documents the reference bonus is never applied: every score
      is the overlap of a qualifying document with that url. */
  lemma {:induction false} DecodedScores(docs: seq<Value>, tokens: seq<string>)
    requires forall i :: 0 <= i < |docs| ==> Decoded(docs[i])
    ensures forall u :: u in Scores(docs, tokens) ==>
      exists i :: 0 <= i < |docs| && Qualifies(docs[i], u, tokens) &&
        Scores(docs, tokens)[u] == Overlap(tokens, IndexOf(docs[i]).value)
    decreases |docs|
  {
    if docs != [] {
      var init, last := docs[..|docs| - 1], docs[|docs| - 1];
      DecodedScores(init, tokens);
      EntryQualifies(last, tokens);
      forall u | u in Scores(docs, tokens) ensures
        exists i :: 0 <= i < |docs| && Qualifies(docs[i], u, tokens) &&
          Scores(docs, tokens)[u] == Overlap(tokens, IndexOf(docs[i]).value)
      {
        var prev := Scores(init, tokens);
        if Entry(last, tokens).Some? && Entry(last, tokens).value.0 == u {
          assert Decoded(docs[|docs| - 1]);
          assert Qualifies(docs[|docs| - 1], u, tokens);
        } else {
          if Entry(last, tokens).Some? {
            var e := Entry(last, tokens).value;
            assert Scores(docs, tokens) == prev[e.0 := e.1];
          } else {
            assert Scores(docs, tokens) == prev;
          }
          assert u in prev && Scores(docs, tokens)[u] == prev[u];
          var i :| 0 <= i < |init| && Qualifies(init[i], u, tokens) &&
            Scores(init, tokens)[u] == Overlap(tokens, IndexOf(init[i]).value);
          assert docs[i] == init[i];
        }
      }
    }
  }

  /** Two documents shaped as the store holds them: the first has an index
      overlapping the query by 4 and two references, the second an overlap of 1
      and none. The first scores 4, not 4 + 2. */
  lemma ScoringExample()
    ensures var a := Obj(map["url" := Str("a"),
                             "index" := Obj(map["go" := Num(3.0), "crawler" := Num(1.0)]),
                             "references" := Arr([Str("x"), Str("y")])]);
            var b := Obj(map["url" := Str("b"), "index" := Obj(map["go" := Num(1.0)]),
                             "references" := Arr([])]);
            Scores([a, b], ["go", "crawler"]) == map["a" := 4, "b" := 1]
  {
    var ia := map["go" := Num(3.0), "crawler" := Num(1.0)];
    var ib := map["go" := Num(1.0)];
    var q := ["go", "crawler"];
    assert q[..1] == ["go"] && q[..1][..0] == [];
    assert Overlap(q, ia) == 4;
    assert Overlap(q, ib) == 1;
    var a := Obj(map["url" := Str("a"), "index" := Obj(ia), "references" := Arr([Str("x"), Str("y")])]);
    var b := Obj(map["url" := Str("b"), "index" := Obj(ib), "references" := Arr([])]);
    assert [a, b][..1] == [a] && [a, b][..1][..0] == [];
    assert Entry(a, q) == Some(("a", 4));
    assert Entry(b, q) == Some(("b", 1));
    assert Scores([a], q) == map["a" := 4];
    assert Scores([a, b], q) == map["a" := 4]["b" := 1];
  }

  /** The scoring loop of `queryDatabase`, filling `urls` in place. */
  method ScoreDocuments(docs: seq<Value>, tokenized: seq<string>) returns (urls: map<string, int>)
    ensures urls == Scores(docs, tokenized)
  {
    urls := map[];
    for i := 0 to |docs|
      invariant urls == Scores(docs[..i], tokenized)
    {
      assert docs[..i + 1][..i] == docs[..i];
      var jsonMap := docs[i];
      if jsonMap.Obj? && "url" in jsonMap.fields && jsonMap.fields["url"].Str? {
        var url := jsonMap.fields["url"].s;
        var similarity := 0;
        if "index" in jsonMap.fields && jsonMap.fields["index"].Obj? {
          var words := jsonMap.fields["index"].fields;
          var c := Count(tokenized, words);
          similarity := similarity + c;
          if similarity != 0 {
            if "references" in jsonMap.fields && jsonMap.fields["references"].GoStrings? {
              var references := |jsonMap.fields["references"].strs|;
              urls := urls[url := similarity + references];
            } else {
              urls := urls[url := similarity];
            }
          }
        }
      }
    }
    assert docs[..|docs|] == docs;
  }

  // ---------------------------------------------------------------------------
  // sortSimilarities

  predicate StrictlySorted(s: seq<string>) {
    forall i, j :: 0 <= i < j < |s| ==> Less(s[i], s[j])
  }

  function Elements(s: seq<string>): set<string> {
    set x | x in s
  }

  function Min(a: int, b: int): int {
    if a < b then a else b
  }

  predicate IsLeast(m: string, s: set<string>) {
    m in s && forall x :: x in s && x != m ==> Less(m, x)
  }

  lemma {:induction false} LeastExists(s: set<string>)
    requires s != {}
    ensures exists m :: IsLeast(m, s)
    decreases s
  {
    var x :| x in s;
    if s != {x} {
      LeastExists(s - {x});
      var m :| IsLeast(m, s - {x});
      LessTotal(m, x);
      if Less(m, x) {
        assert IsLeast(m, s);
      } else {
        forall y | y in s && y != x ensures Less(x, y) {
          if y != m {
            LessTransitive(x, m, y);
          }
        }
        assert IsLeast(x, s);
      }
    } else {
      assert IsLeast(x, s);
    }
  }

  /** The elements of a set in ascending order. */
  ghost function SortedSet(s: set<string>): seq<string>
    decreases s
  {
    if s == {} then []
    else
      LeastExists(s);
      var m :| IsLeast(m, s);
      [m] + SortedSet(s - {m})
  }

  /** Putting a least element in front keeps a sequence ascending. */
  lemma ConsSorted(m: string, r: seq<string>)
    requires StrictlySorted(r)
    requires forall y :: y in r ==> Less(m, y)
    ensures StrictlySorted([m] + r)
    ensures Elements([m] + r) == {m} + Elements(r)
  {
    var out := [m] + r;
    forall i, j | 0 <= i < j < |out| ensures Less(out[i], out[j]) {
      assert out[j] == r[j - 1];
      if i > 0 {
        assert out[i] == r[i - 1];
      } else {
        assert r[j - 1] in r;
      }
    }
  }

  lemma {:induction false} SortedSetProps(s: set<string>)
    ensures StrictlySorted(SortedSet(s))
    ensures Elements(SortedSet(s)) == s
    ensures |SortedSet(s)| == |s|
    decreases s
  {
    if s != {} {
      LeastExists(s);
      var m :| IsLeast(m, s) && SortedSet(s) == [m] + SortedSet(s - {m});
      SortedSetProps(s - {m});
      var r := SortedSet(s - {m});
      forall y | y in r ensures Less(m, y) {
        assert y in Elements(r);
      }
      ConsSorted(m, r);
    }
  }

  /** The head of a strictly ascending sequence is its least element. */
  lemma HeadIsLeast(q: seq<string>)
    requires StrictlySorted(q) && q != []
    ensures IsLeast(q[0], Elements(q))
  {
    forall x | x in Elements(q) && x != q[0] ensures Less(q[0], x) {
      var j :| 0 <= j < |q| && q[j] == x;
    }
  }

  lemma LeastUnique(a: string, b: string, s: set<string>)
    requires IsLeast(a, s) && IsLeast(b, s)
    ensures a == b
  {
    if a != b {
      LessAsymmetric(a, b);
    }
  }

  /** Dropping the head of a strictly ascending sequence removes exactly that
      element. */
  lemma TailElements(q: seq<string>)
    requires StrictlySorted(q) && q != []
    ensures StrictlySorted(q[1..])
    ensures Elements(q[1..]) == Elements(q) - {q[0]}
  {
    assert q == [q[0]] + q[1..];
    LessIrreflexive(q[0]);
    forall j | 0 <= j < |q[1..]| ensures q[1..][j] != q[0] {
      assert Less(q[0], q[j + 1]);
    }
  }

  /** Two strictly ascending sequences with the same elements are equal. */
  lemma {:induction false} SortedEqual(p: seq<string>, q: seq<string>)
    requires StrictlySorted(p) && StrictlySorted(q) && Elements(p) == Elements(q)
    ensures p == q
    decreases |p|
  {
    assert p == [] || p[0] in Elements(p);
    assert q == [] || q[0] in Elements(q);
    if p != [] && q != [] {
      HeadIsLeast(p);
      HeadIsLeast(q);
      LeastUnique(p[0], q[0], Elements(p));
      TailElements(p);
      TailElements(q);
      SortedEqual(p[1..], q[1..]);
      assert p == [p[0]] + p[1..] && q == [q[0]] + q[1..];
    }
  }

  /** A strictly ascending sequence is determined by its elements. */
  lemma SortedUnique(q: seq<string>, s: set<string>)
    requires StrictlySorted(q) && Elements(q) == s
    ensures q == SortedSet(s)
  {
    SortedSetProps(s);
    SortedEqual(q, SortedSet(s));
  }

  /** Insertion into an ascending sequence. */
  function Insert(x: string, q: seq<string>): seq<string>
  {
    if q == [] then [x]
    else if Less(q[0], x) then [q[0]] + Insert(x, q[1..])
    else [x] + q
  }

  /** `sort.Strings`, as an insertion sort. */
  function SortStrings(s: seq<string>): seq<string>
  {
    if s == [] then [] else Insert(s[0], SortStrings(s[1..]))
  }

  lemma {:induction false} InsertSorted(x: string, q: seq<string>)
    requires StrictlySorted(q) && x !in q
    ensures StrictlySorted(Insert(x, q))
    ensures Elements(Insert(x, q)) == Elements(q) + {x}
    ensures |Insert(x, q)| == |q| + 1
    decreases |q|
  {
    if q == [] {
    } else if Less(q[0], x) {
      var rest := q[1..];
      assert q == [q[0]] + rest;
      assert x !in rest;
      InsertSorted(x, rest);
      var r := Insert(x, rest);
      forall y | y in r ensures Less(q[0], y) {
        assert y in Elements(r);
        if y != x {
          assert y in Elements(rest);
          var j :| 0 <= j < |rest| && rest[j] == y;
          assert q[j + 1] == y;
        }
      }
      ConsSorted(q[0], r);
      assert Elements(q) == {q[0]} + Elements(rest);
    } else {
      LessTotal(q[0], x);
      assert q[0] in q;
      var out := [x] + q;
      forall i, j | 0 <= i < j < |out| ensures Less(out[i], out[j]) {
        if i == 0 {
          assert out[j] == q[j - 1];
          if j > 1 {
            LessTransitive(x, q[0], q[j - 1]);
          }
        } else {
          assert out[i] == q[i - 1] && out[j] == q[j - 1];
        }
      }
      assert Elements(out) == {x} + Elements(q);
    }
  }

  lemma {:induction false} SortStringsSorted(s: seq<string>)
    requires Distinct(s)
    ensures StrictlySorted(SortStrings(s))
    ensures Elements(SortStrings(s)) == Elements(s)
    ensures |SortStrings(s)| == |s|
    decreases |s|
  {
    if s != [] {
      var rest := s[1..];
      assert Distinct(rest) by {
        forall i, j | 0 <= i < j < |rest| ensures rest[i] != rest[j] {
          assert rest[i] == s[i + 1] && rest[j] == s[j + 1];
        }
      }
      SortStringsSorted(rest);
      forall j | 0 <= j < |rest| ensures rest[j] != s[0] {
        assert rest[j] == s[j + 1];
      }
      assert s[0] !in Elements(rest);
      InsertSorted(s[0], SortStrings(rest));
      assert s == [s[0]] + rest;
      assert Elements(s) == {s[0]} + Elements(rest);
    }
  }

  /** A prefix of an ascending listing of a set is ascending, lies in the set,
      and comes before every element of the set it leaves out. */
  lemma PrefixOrder(keys: seq<string>, s: set<string>, n: nat)
    requires StrictlySorted(keys) && Elements(keys) == s && n <= |keys|
    ensures StrictlySorted(keys[..n])
    ensures forall u :: u in keys[..n] ==> u in s
    ensures forall u, v :: u in s && u !in keys[..n] && v in keys[..n] ==> Less(v, u)
  {
    var p := keys[..n];
    forall u | u in p ensures u in s {
      var k :| 0 <= k < |p| && p[k] == u;
      assert keys[k] == u;
    }
    forall u, v | u in s && u !in p && v in p ensures Less(v, u) {
      var j :| 0 <= j < |keys| && keys[j] == u;
      var k :| 0 <= k < |p| && p[k] == v;
      assert keys[k] == v;
    }
  }

  /** The URLs `sortSimilarities` shows for a given key set: the first 11 in
      ascending order (the `maxMatches > 10` check follows the append). */
  ghost function TopUrls(keys: set<string>): seq<string>
  {
    SortedSetProps(keys);
    SortedSet(keys)[..Min(|keys|, 11)]
  }

  /** An ascending listing of a key set, cut after the eleventh, is what
      `TopUrls` names. */
  lemma TopUrlsOf(keys: seq<string>, s: set<string>)
    requires StrictlySorted(keys) && Elements(keys) == s
    ensures |keys| == |s|
    ensures keys[..Min(|keys|, 11)] == TopUrls(s)
    ensures StrictlySorted(TopUrls(s))
    ensures forall u :: u in TopUrls(s) ==> u in s
    ensures forall u, v :: u in s && u !in TopUrls(s) && v in TopUrls(s) ==> Less(v, u)
  {
    SortedUnique(keys, s);
    SortedSetProps(s);
    PrefixOrder(keys, s, Min(|keys|, 11));
  }

  /** `sortSimilarities`: the keys in ascending order, cut after the eleventh;
      the scores play no part. */
  method SortSimilarities(urls: map<string, int>) returns (result: seq<string>)
    ensures result == TopUrls(urls.Keys)
    ensures |result| == Min(|urls|, 11)
    ensures StrictlySorted(result)
    ensures forall u :: u in result ==> u in urls
    ensures forall u, v :: u in urls && u !in result && v in result ==> Less(v, u)
  {
    var keys: seq<string> := [];
    var rest := urls.Keys;
    while rest != {}
      invariant Distinct(keys)
      invariant Elements(keys) !! rest
      invariant Elements(keys) + rest == urls.Keys
      decreases rest
    {
      var k :| k in rest;
      keys := keys + [k];
      rest := rest - {k};
    }
    SortStringsSorted(keys);
    keys := SortStrings(keys);
    result := [];
    var maxMatches := 0;
    var i := 0;
    while i < |keys|
      invariant 0 <= i <= |keys| && i <= 10
      invariant maxMatches == i
      invariant result == keys[..i]
    {
      result := result + [keys[i]];
      maxMatches := maxMatches + 1;
      if maxMatches > 10 {
        break;
      }
      i := i + 1;
    }
    assert result == keys[..Min(|keys|, 11)];
    TopUrlsOf(keys, urls.Keys);
    assert |urls.Keys| == |urls|;
  }

  // ---------------------------------------------------------------------------
  // queryDatabase and search

  /** `queryDatabase` from the fetched collection on: score every document,
      then pick the URLs to show. Every shown url belongs to a document that
      qualifies under it. */
  method QueryDatabase(docs: seq<Value>, tokenized: seq<string>) returns (mostSimilar: seq<string>)
    ensures mostSimilar == TopUrls(Scores(docs, tokenized).Keys)
    ensures forall u :: u in mostSimilar ==>
      exists i :: 0 <= i < |docs| && Qualifies(docs[i], u, tokenized)
    ensures |mostSimilar| <= 11
  {
    var urls := ScoreDocuments(docs, tokenized);
    mostSimilar := SortSimilarities(urls);
    ScoredIff(docs, tokenized);
  }

  /** `search` without its printing: the result list is empty (the "no
      results" message) exactly when no stored document qualifies. */
  method Search(query: string, normalise: seq<string> -> Normalised, docs: seq<Value>)
    returns (results: seq<string>)
    ensures results == TopUrls(Scores(docs, StandardizeInput(query, normalise)).Keys)
    ensures results == [] <==>
      forall i, u :: 0 <= i < |docs| ==> !Qualifies(docs[i], u, StandardizeInput(query, normalise))
  {
    var tokenized := StandardizeInput(query, normalise);
    results := QueryDatabase(docs, tokenized);
    ScoredIff(docs, tokenized);
    var scores := Scores(docs, tokenized);
    SortedSetProps(scores.Keys);
    assert |scores.Keys| == |scores|;
    if results == [] {
      assert scores.Keys == {};
      forall i, u | 0 <= i < |docs| ensures !Qualifies(docs[i], u, tokenized) {
        assert u !in scores;
      }
    } else {
      var u := results[0];
      assert u in scores;
      var i :| 0 <= i < |docs| && Qualifies(docs[i], u, tokenized);
    }
  }
}
