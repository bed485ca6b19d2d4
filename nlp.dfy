/**
 * Page indexing: cmd/nlp.go and its copy backend/nlp.go. The two files hold the
 * same four functions (the second names `nlp_index` as `nlpIndex`), so this one
 * module models both.
 *
 * The token index is a Go `map[string]int`, where reading a missing key gives
 * 0 and `result[word]++` creates the key with count 1.
 */
module Nlp {
  import opened Text
  import opened Values

  /** Reading `m[k]` in Go. */
  function Get(m: map<string, int>, k: string): int {
    if k in m then m[k] else 0
  }

  /** `m[w]++`. */
  function Bump(m: map<string, int>, w: string): (r: map<string, int>)
    ensures r.Keys == m.Keys + {w}
    ensures Get(r, w) == Get(m, w) + 1
    ensures forall k :: k != w ==> Get(r, k) == Get(m, k)
  {
    m[w := Get(m, w) + 1]
  }

  /** The map after `m[removePunctuation(word)]++` for each word, in order. */
  function Tally(m: map<string, int>, words: seq<string>): map<string, int>
  {
    if words == [] then m
    else Bump(Tally(m, words[..|words| - 1]), StripPunct(words[|words| - 1]))
  }

  /** How many of the words strip to `k`. */
  function Hits(k: string, words: seq<string>): nat
  {
    if words == [] then 0
    else Hits(k, words[..|words| - 1]) + (if StripPunct(words[|words| - 1]) == k then 1 else 0)
  }

  /** The stripped forms of the words. */
  function StrippedSet(words: seq<string>): set<string> {
    set w | w in words :: StripPunct(w)
  }

  /** `index(m, text)`: one count per whitespace field, under its stripped form. */
  function IndexText(m: map<string, int>, text: string): map<string, int> {
    Tally(m, Fields(text))
  }

  /** `index(m, t)` for each text in turn. */
  function IndexTexts(m: map<string, int>, texts: seq<string>): map<string, int>
  {
    if texts == [] then m
    else IndexText(IndexTexts(m, texts[..|texts| - 1]), texts[|texts| - 1])
  }

  predicate AllPositive(m: map<string, int>) {
    forall k :: k in m ==> m[k] >= 1
  }

  lemma MapsEqual(m1: map<string, int>, m2: map<string, int>)
    requires m1.Keys == m2.Keys
    requires forall k :: Get(m1, k) == Get(m2, k)
    ensures m1 == m2
  {
    forall k | k in m1 ensures m1[k] == m2[k] {
      assert Get(m1, k) == Get(m2, k);
    }
  }

  /** What a tally does to each key: it adds the number of words that strip to
      it, and creates exactly the keys that some word strips to. */
  lemma {:induction false} TallyEffect(m: map<string, int>, words: seq<string>)
    ensures forall k :: Get(Tally(m, words), k) == Get(m, k) + Hits(k, words)
    ensures Tally(m, words).Keys == m.Keys + StrippedSet(words)
    decreases |words|
  {
    if words != [] {
      var init := words[..|words| - 1];
      TallyEffect(m, init);
      assert words == init + [words[|words| - 1]];
      assert StrippedSet(words) == StrippedSet(init) + {StripPunct(words[|words| - 1])};
    }
  }

  lemma {:induction false} TallyAppend(m: map<string, int>, a: seq<string>, b: seq<string>)
    ensures Tally(m, a + b) == Tally(Tally(m, a), b)
    decreases |b|
  {
    if b == [] {
      assert a + b == a;
    } else {
      assert (a + b)[..|a + b| - 1] == a + b[..|b| - 1];
      TallyAppend(m, a, b[..|b| - 1]);
    }
  }

  /** Indexing text `a` and then text `b` gives the same map as `b` then `a`. */
  lemma IndexTextCommutes(m: map<string, int>, a: string, b: string)
    ensures IndexText(IndexText(m, a), b) == IndexText(IndexText(m, b), a)
  {
    var fa, fb := Fields(a), Fields(b);
    TallyEffect(m, fa);
    TallyEffect(m, fb);
    TallyEffect(Tally(m, fa), fb);
    TallyEffect(Tally(m, fb), fa);
    MapsEqual(IndexText(IndexText(m, a), b), IndexText(IndexText(m, b), a));
  }

  // ---------------------------------------------------------------------------
  // The sum of all counts

  ghost function SumOver(m: map<string, int>, keys: set<string>): int
    decreases keys
  {
    if keys == {} then 0
    else
      var k :| k in keys;
      Get(m, k) + SumOver(m, keys - {k})
  }

  /** The sum of all counts of the map. */
  ghost function Total(m: map<string, int>): int {
    SumOver(m, m.Keys)
  }

  lemma {:induction false} SumOverRemove(m: map<string, int>, keys: set<string>, k: string)
    requires k in keys
    ensures SumOver(m, keys) == Get(m, k) + SumOver(m, keys - {k})
    decreases keys
  {
    var j :| j in keys && SumOver(m, keys) == Get(m, j) + SumOver(m, keys - {j});
    if j != k {
      SumOverRemove(m, keys - {j}, k);
      SumOverRemove(m, keys - {k}, j);
      assert keys - {j} - {k} == keys - {k} - {j};
    }
  }

  lemma {:induction false} SumOverAgree(m1: map<string, int>, m2: map<string, int>, keys: set<string>)
    requires forall k :: k in keys ==> Get(m1, k) == Get(m2, k)
    ensures SumOver(m1, keys) == SumOver(m2, keys)
    decreases keys
  {
    if keys != {} {
      var k :| k in keys;
      SumOverRemove(m1, keys, k);
      SumOverRemove(m2, keys, k);
      SumOverAgree(m1, m2, keys - {k});
    }
  }

  /** `m[w]++` raises the sum of all counts by one. */
  lemma TotalBump(m: map<string, int>, w: string)
    ensures Total(Bump(m, w)) == Total(m) + 1
  {
    var r := Bump(m, w);
    if w in m {
      assert r.Keys == m.Keys;
      SumOverRemove(r, r.Keys, w);
      SumOverRemove(m, m.Keys, w);
      SumOverAgree(r, m, m.Keys - {w});
    } else {
      SumOverRemove(r, r.Keys, w);
      assert r.Keys - {w} == m.Keys;
      SumOverAgree(r, m, m.Keys);
    }
  }

  lemma {:induction false} TotalTally(m: map<string, int>, words: seq<string>)
    ensures Total(Tally(m, words)) == Total(m) + |words|
    decreases |words|
  {
    if words != [] {
      var init := words[..|words| - 1];
      TotalTally(m, init);
      TotalBump(Tally(m, init), StripPunct(words[|words| - 1]));
    }
  }

  lemma {:induction false} TallyPositive(m: map<string, int>, words: seq<string>)
    requires AllPositive(m)
    ensures AllPositive(Tally(m, words))
    decreases |words|
  {
    if words != [] {
      TallyPositive(m, words[..|words| - 1]);
    }
  }

  /** `index(m, text)`: the sum of all counts grows by exactly the number of
      whitespace fields of `text`; no count decreases; a key changes only when
      it is the stripped form of one of the fields, and then it gains one per
      such field (an all-punctuation field counts under the empty key). */
  lemma IndexTextEffect(m: map<string, int>, text: string)
    ensures Total(IndexText(m, text)) == Total(m) + |Fields(text)|
    ensures forall k :: Get(IndexText(m, text), k) == Get(m, k) + Hits(k, Fields(text))
    ensures forall k :: Get(IndexText(m, text), k) >= Get(m, k)
    ensures forall k :: k !in StrippedSet(Fields(text)) ==>
      Get(IndexText(m, text), k) == Get(m, k) && (k in IndexText(m, text) <==> k in m)
    ensures IndexText(m, text).Keys == m.Keys + StrippedSet(Fields(text))
  {
    TotalTally(m, Fields(text));
    TallyEffect(m, Fields(text));
    forall k | k !in StrippedSet(Fields(text)) ensures Hits(k, Fields(text)) == 0 {
      HitsOfAbsent(k, Fields(text));
    }
  }

  lemma {:induction false} HitsOfAbsent(k: string, words: seq<string>)
    requires k !in StrippedSet(words)
    ensures Hits(k, words) == 0
    decreases |words|
  {
    if words != [] {
      var init := words[..|words| - 1];
      assert words[|words| - 1] in words;
      assert StrippedSet(init) <= StrippedSet(words);
      HitsOfAbsent(k, init);
    }
  }

  predicate PunctOnly(w: string) {
    forall c :: c in w ==> IsPunct(c)
  }

  /** A word strips to the empty string exactly when it is made only of
      punctuation. */
  lemma StripsToEmpty(w: string)
    ensures StripPunct(w) == "" <==> PunctOnly(w)
  {
    StripPunctElements(w);
    assert StripPunct(w) == "" || StripPunct(w)[0] in StripPunct(w);
  }

  /** Under `index`, the empty key gains exactly one count per field of the
      text that is made only of punctuation. */
  lemma IndexEmptyKey(m: map<string, int>, text: string)
    ensures Get(IndexText(m, text), "") == Get(m, "") + Hits("", Fields(text))
    ensures forall w :: w in Fields(text) ==> (StripPunct(w) == "" <==> PunctOnly(w))
  {
    TallyEffect(m, Fields(text));
    forall w | w in Fields(text) ensures StripPunct(w) == "" <==> PunctOnly(w) {
      StripsToEmpty(w);
    }
  }

  /** In particular a single field made only of punctuation is counted under
      the empty key. */
  lemma PunctFieldCounted(m: map<string, int>, w: string)
    requires w != "" && NoSpace(w) && PunctOnly(w)
    ensures Get(IndexText(m, w), "") == Get(m, "") + 1
  {
    FieldsOfWord(w);
    StripsToEmpty(w);
    IndexEmptyKey(m, w);
    assert [w][..0] == [];
    assert Hits("", [w]) == 1;
  }

  // ---------------------------------------------------------------------------
  // The local tokenisation (standardize, removePunctuation on each word)

  /** `strings.ToLower` of each field. */
  function LowerAll(fs: seq<string>): (r: seq<string>)
    ensures |r| == |fs|
  {
    seq(|fs|, i requires 0 <= i < |fs| => ToLower(fs[i]))
  }

  /** `removePunctuation` of each word. */
  function StripAll(ws: seq<string>): (r: seq<string>)
    ensures |r| == |ws|
  {
    seq(|ws|, i requires 0 <= i < |ws| => StripPunct(ws[i]))
  }

  /** The words other than the empty string, in order. */
  function NonEmpty(ws: seq<string>): seq<string>
  {
    if ws == [] then []
    else NonEmpty(ws[..|ws| - 1]) + (if ws[|ws| - 1] == "" then [] else [ws[|ws| - 1]])
  }

  /** A word as the local path produces it: no white space, no punctuation, no
      upper-case letter. */
  predicate CleanWord(w: string) {
    NoSpace(w) && NoPunct(w) && Lowered(w)
  }

  /** One field of a standardized word list. */
  predicate LoweredField(w: string) {
    w != [] && NoSpace(w) && Lowered(w)
  }

  /** The HTML elements the indexing collector reacts to. An image without
      an `alt` attribute has `alt == ""`. */
  datatype Element =
    | Title(text: string)
    | Img(alt: string)
    | MetaDescription(content: string)
    | Heading(name: string, text: string)

  /** Position of an element's selector among the registered callbacks. */
  function Kind(e: Element): nat {
    match e
    case Title(_) => 0
    case Img(_) => 1
    case MetaDescription(_) => 2
    case Heading(_, _) => 3
  }

  function OfKind(page: seq<Element>, kind: nat): (r: seq<Element>)
    ensures forall e :: e in r ==> e in page && Kind(e) == kind
  {
    if page == [] then []
    else (if Kind(page[0]) == kind then [page[0]] else []) + OfKind(page[1..], kind)
  }

  /** The order in which `Visit` runs the callbacks: callback by callback in
      registration order, and for each the matching elements in document order. */
  function DispatchOrder(page: seq<Element>): seq<Element> {
    OfKind(page, 0) + OfKind(page, 1) + OfKind(page, 2) + OfKind(page, 3)
  }

  /** The text a callback hands to `standardize`, if it calls it at all. */
  function CallbackInput(e: Element): Option<string> {
    match e
    case Title(t) => Some(t)
    case Img(alt) => if alt != "" then Some(alt) else None
    case MetaDescription(c) => Some(c)
    case Heading(n, t) =>
      var entry := n + " " + t;
      if entry != "" then Some(entry) else None
  }

  /** The word list after the callbacks for the given elements have run. */
  function Collected(elements: seq<Element>): seq<string>
  {
    if elements == [] then []
    else
      var init := Collected(elements[..|elements| - 1]);
      match CallbackInput(elements[|elements| - 1])
      case Some(t) => init + LowerAll(Fields(t))
      case None => init
  }

  /** `nlp_index` / `nlpIndex` after the page visit: the words are stripped,
      sent to the normaliser, and the index is empty, built from the stripped
      words, or built from the normaliser's tokens. */
  function PageIndex(page: seq<Element>, normalise: seq<string> -> Normalised): map<string, int>
  {
    var words := StripAll(Collected(DispatchOrder(page)));
    match normalise(words)
    case ProcessFailed => map[]
    case Unparsable => IndexTexts(map[], words)
    case Tokens(ts) => IndexTexts(map[], ts)
  }

  lemma LowerAllFields(t: string)
    ensures forall w :: w in LowerAll(Fields(t)) ==> LoweredField(w)
  {
    FieldsWellFormed(t);
    forall w | w in LowerAll(Fields(t)) ensures LoweredField(w) {
      var i :| 0 <= i < |LowerAll(Fields(t))| && LowerAll(Fields(t))[i] == w;
      assert Fields(t)[i] in Fields(t);
      ToLowerLowers(Fields(t)[i]);
    }
  }

  /** Every collected word is a non-empty, lower-cased whitespace field. */
  lemma {:induction false} CollectedFields(elements: seq<Element>)
    ensures forall w :: w in Collected(elements) ==> LoweredField(w)
    decreases |elements|
  {
    if elements != [] {
      CollectedFields(elements[..|elements| - 1]);
      match CallbackInput(elements[|elements| - 1])
      case Some(t) => LowerAllFields(t);
      case None =>
    }
  }

  /** After stripping, every collected word is clean. */
  lemma StrippedWordsClean(elements: seq<Element>)
    ensures forall w :: w in StripAll(Collected(elements)) ==> CleanWord(w)
  {
    var ws := Collected(elements);
    CollectedFields(elements);
    forall w | w in StripAll(ws) ensures CleanWord(w) {
      var i :| 0 <= i < |ws| && StripAll(ws)[i] == w;
      assert ws[i] in ws;
      StripPunctClean(ws[i]);
    }
  }

  /** Indexing clean words one text at a time is a tally of the non-empty
      ones: an empty word has no field, a clean word is its own single field. */
  lemma {:induction false} IndexTextsOfClean(m: map<string, int>, ws: seq<string>)
    requires forall w :: w in ws ==> CleanWord(w)
    ensures IndexTexts(m, ws) == Tally(m, NonEmpty(ws))
    decreases |ws|
  {
    if ws != [] {
      var init, w := ws[..|ws| - 1], ws[|ws| - 1];
      assert w in ws;
      assert forall x :: x in init ==> x in ws;
      IndexTextsOfClean(m, init);
      FieldsOfWord(w);
      var prev := IndexTexts(m, init);
      assert IndexTexts(m, ws) == IndexText(prev, w);
      if w != "" {
        StripPunctOfClean(w);
        assert [w][..0] == [];
        assert Fields(w) == [w];
        assert Tally(prev, [w]) == Bump(Tally(prev, []), StripPunct(w));
        assert IndexText(prev, w) == Bump(prev, w);
        var ne := NonEmpty(init) + [w];
        assert NonEmpty(ws) == ne;
        assert ne[..|ne| - 1] == NonEmpty(init);
      } else {
        assert IndexText(prev, w) == prev;
        assert NonEmpty(ws) == NonEmpty(init) + [];
        assert NonEmpty(init) + [] == NonEmpty(init);
      }
    }
  }

  lemma {:induction false} NonEmptyElements(ws: seq<string>)
    ensures forall w :: w in NonEmpty(ws) <==> w in ws && w != ""
    decreases |ws|
  {
    if ws != [] {
      NonEmptyElements(ws[..|ws| - 1]);
      assert ws == ws[..|ws| - 1] + [ws[|ws| - 1]];
    }
  }

  /** Without a usable normaliser reply but with a run that succeeded, the
      index holds exactly the non-empty stripped words as keys (each clean and
      lower-cased), every count is positive, and the counts add up to the
      number of non-empty stripped words. */
  lemma LocalIndex(page: seq<Element>, normalise: seq<string> -> Normalised)
    requires normalise(StripAll(Collected(DispatchOrder(page)))) == Unparsable
    ensures var r := PageIndex(page, normalise);
      var ws := StripAll(Collected(DispatchOrder(page)));
      && r == Tally(map[], NonEmpty(ws))
      && (forall k :: k in r <==> k in ws && k != "")
      && (forall k :: k in r ==> CleanWord(k) && r[k] >= 1)
      && Total(r) == |NonEmpty(ws)|
  {
    var ws := StripAll(Collected(DispatchOrder(page)));
    StrippedWordsClean(DispatchOrder(page));
    IndexTextsOfClean(map[], ws);
    var ne := NonEmpty(ws);
    NonEmptyElements(ws);
    TallyEffect(map[], ne);
    TallyPositive(map[], ne);
    TotalTally(map[], ne);
    assert Total(map[]) == 0;
    forall w | w in ne ensures StripPunct(w) == w {
      StripPunctOfClean(w);
    }
    assert StrippedSet(ne) == set w | w in ne;
  }

  /** The number of whitespace fields across the texts. */
  function FieldCount(ts: seq<string>): nat
  {
    if ts == [] then 0 else FieldCount(ts[..|ts| - 1]) + |Fields(ts[|ts| - 1])|
  }

  /** Indexing a list of texts keeps counts positive, adds only keys free of
      punctuation, and adds one to the sum per whitespace field. */
  lemma {:induction false} IndexTextsShape(m: map<string, int>, ts: seq<string>)
    requires AllPositive(m)
    ensures AllPositive(IndexTexts(m, ts))
    ensures forall k :: k in IndexTexts(m, ts) && k !in m ==> NoPunct(k)
    ensures Total(IndexTexts(m, ts)) == Total(m) + FieldCount(ts)
    decreases |ts|
  {
    if ts != [] {
      var init := ts[..|ts| - 1];
      IndexTextsShape(m, init);
      var prev := IndexTexts(m, init);
      TallyPositive(prev, Fields(ts[|ts| - 1]));
      IndexTextEffect(prev, ts[|ts| - 1]);
      forall k | k in StrippedSet(Fields(ts[|ts| - 1])) ensures NoPunct(k) {
        var w :| w in Fields(ts[|ts| - 1]) && StripPunct(w) == k;
        StripPunctClean(w);
      }
    }
  }

  /** With the normaliser's tokens, the index is positive, its keys hold no
      punctuation, and its counts add up to the number of whitespace fields of
      the tokens. */
  lemma NormalisedIndex(page: seq<Element>, normalise: seq<string> -> Normalised)
    requires normalise(StripAll(Collected(DispatchOrder(page)))).Tokens?
    ensures var r := PageIndex(page, normalise);
      var ts := normalise(StripAll(Collected(DispatchOrder(page)))).tokens;
      && r == IndexTexts(map[], ts)
      && (forall k :: k in r ==> NoPunct(k) && r[k] >= 1)
      && Total(r) == FieldCount(ts)
  {
    var ts := normalise(StripAll(Collected(DispatchOrder(page)))).tokens;
    IndexTextsShape(map[], ts);
    assert Total(map[]) == 0;
  }

  /** A failed normaliser run yields an empty index, not a local fallback. */
  lemma FailedRunIndex(page: seq<Element>, normalise: seq<string> -> Normalised)
    requires normalise(StripAll(Collected(DispatchOrder(page)))) == ProcessFailed
    ensures PageIndex(page, normalise) == map[]
  {
  }

  // ---------------------------------------------------------------------------
  // The Go functions

  /** `removePunctuation`: a builder that receives every non-punctuation code
      point of `s` in turn. */
  method RemovePunctuation(s: string) returns (r: string)
    ensures r == StripPunct(s)
  {
    r := "";
    var i := 0;
    while i < |s|
      invariant 0 <= i <= |s|
      invariant r == StripPunct(s[..i])
    {
      assert s[..i + 1][..i] == s[..i];
      if !IsPunct(s[i]) {
        r := r + [s[i]];
      }
      i := i + 1;
    }
    assert s[..i] == s;
  }

  /** `standardize`: `words` followed by the lower-cased fields of `input`. */
  method Standardize(words: seq<string>, input: string) returns (r: seq<string>)
    ensures r == words + LowerAll(Fields(input))
    ensures r[..|words|] == words
  {
    r := words;
    var fields := Fields(input);
    for i := 0 to |fields|
      invariant r == words + LowerAll(fields[..i])
    {
      assert LowerAll(fields[..i + 1]) == LowerAll(fields[..i]) + [ToLower(fields[i])];
      r := r + [ToLower(fields[i])];
    }
    assert fields[..|fields|] == fields;
  }

  /** The bodies of the four `OnHTML` callbacks of `nlp_index`. */
  method OnElement(words: seq<string>, e: Element) returns (r: seq<string>)
    ensures CallbackInput(e).Some? ==> r == words + LowerAll(Fields(CallbackInput(e).value))
    ensures CallbackInput(e).None? ==> r == words
  {
    match e
    case Title(t) =>
      r := Standardize(words, t);
    case Img(alt) =>
      r := words;
      if alt != "" {
        r := Standardize(words, alt);
      }
    case MetaDescription(c) =>
      r := Standardize(words, c);
    case Heading(n, t) =>
      var entry := n + " " + t;
      r := words;
      if entry != "" {
        r := Standardize(words, entry);
      }
  }

  /** The loop that replaces every collected word by its stripped form. */
  method StripWords(a: array<string>)
    modifies a
    ensures a[..] == StripAll(old(a[..]))
  {
    for i := 0 to a.Length
      invariant forall j :: 0 <= j < i ==> a[j] == StripPunct(old(a[j]))
      invariant forall j :: i <= j < a.Length ==> a[j] == old(a[j])
    {
      a[i] := RemovePunctuation(a[i]);
    }
  }

  /** The token-frequency map of a page, updated in place by `index`. */
  class TokenIndex {
    var counts: map<string, int>

    constructor ()
      ensures counts == map[]
    {
      counts := map[];
    }

    /** `index(result, text)`. */
    method Index(text: string)
      modifies this
      ensures counts == IndexText(old(counts), text)
    {
      var fields := Fields(text);
      var i := 0;
      while i < |fields|
        invariant 0 <= i <= |fields|
        invariant counts == Tally(old(counts), fields[..i])
      {
        assert fields[..i + 1][..i] == fields[..i];
        var word := RemovePunctuation(fields[i]);
        counts := counts[word := Get(counts, word) + 1];
        i := i + 1;
      }
      assert fields[..i] == fields;
    }
  }

  /** `nlp_index` / `nlpIndex`, from the visited page's elements to the map
      sent on the channel. */
  method NlpIndex(page: seq<Element>, normalise: seq<string> -> Normalised)
    returns (result: map<string, int>)
    ensures result == PageIndex(page, normalise)
  {
    var index := new TokenIndex();
    var elements := DispatchOrder(page);
    var words: seq<string> := [];
    for i := 0 to |elements|
      invariant words == Collected(elements[..i])
      invariant index.counts == map[]
    {
      assert elements[..i + 1][..i] == elements[..i];
      words := OnElement(words, elements[i]);
    }
    assert elements[..|elements|] == elements;
    var a := new string[|words|](j requires 0 <= j < |words| => words[j]);
    assert a[..] == words;
    StripWords(a);
    var stripped := a[..];
    match normalise(stripped) {
      case ProcessFailed =>
      case Unparsable =>
        for i := 0 to |stripped|
          invariant index.counts == IndexTexts(map[], stripped[..i])
        {
          assert stripped[..i + 1][..i] == stripped[..i];
          index.Index(stripped[i]);
        }
        assert stripped[..|stripped|] == stripped;
      case Tokens(ts) =>
        for i := 0 to |ts|
          invariant index.counts == IndexTexts(map[], ts[..i])
        {
          assert ts[..i + 1][..i] == ts[..i];
          index.Index(ts[i]);
        }
        assert ts[..|ts|] == ts;
    }
    result := index.counts;
  }
}
