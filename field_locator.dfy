/**
 * How the content script picks the page's upload field (contentScript.js:30-78): collect
 * every `<input type="file">` of the document and of every nested shadow root, drop the
 * disabled ones, score the rest by keywords and visibility, and take the head of the
 * list sorted by descending score.
 */
module FieldLocator {
  import opened Wrappers
  import opened JsString
  import opened StableSort

  /**
   * A file input as the scorer sees it. `node` is the element's identity on the page;
   * `labelText` is what `getLabelText` returns (already lower-cased) and `visible` what
   * `isElementVisible` decides: both depend on layout and are taken as given.
   */
  datatype FileInput = FileInput(
    node: nat, name: string, id: string, ariaLabel: string, placeholder: string,
    labelText: string, visible: bool, disabled: bool)

  /**
   * A node of the page: an element (possibly a file input) with its light-DOM children and
   * its shadow root, if any. A document or a shadow root is a `Node` whose own `input` is
   * not an element of the tree and is never looked at.
   */
  datatype Node = Node(input: Option<FileInput>, children: seq<Node>, shadowRoot: Option<Node>)

  function OwnInput(n: Node): seq<FileInput> {
    if n.input.Some? then [n.input.value] else []
  }

  /** `root.querySelectorAll('input[type="file"]')` below one element: itself, then its descendants, in document order. */
  function NodeInputs(n: Node): seq<FileInput>
    decreases n, 1
  {
    OwnInput(n) + ForestInputs(n.children)
  }

  function ForestInputs(ns: seq<Node>): seq<FileInput>
    decreases ns, 0
  {
    if ns == [] then [] else NodeInputs(ns[0]) + ForestInputs(ns[1..])
  }

  /** The shadow-root results for one element and its light descendants, in document order of the hosts. */
  function NodeShadowInputs(n: Node): seq<FileInput>
    decreases n, 1
  {
    (if n.shadowRoot.Some? then CollectFileInputs(n.shadowRoot.value) else []) + ForestShadowInputs(n.children)
  }

  function ForestShadowInputs(ns: seq<Node>): seq<FileInput>
    decreases ns, 0
  {
    if ns == [] then [] else NodeShadowInputs(ns[0]) + ForestShadowInputs(ns[1..])
  }

  /** `collectFileInputs(root)`: the root's own file inputs, then every shadow root's collection in host order. */
  function CollectFileInputs(root: Node): seq<FileInput>
    decreases root, 2
  {
    ForestInputs(root.children) + ForestShadowInputs(root.children)
  }

  /** Reference count of the file inputs of a tree: each element's own input, its light subtree and its shadow tree. */
  ghost function ElementInputs(n: Node): multiset<FileInput>
    decreases n, 1
  {
    multiset(OwnInput(n)) + ForestAll(n.children)
    + (if n.shadowRoot.Some? then TreeAll(n.shadowRoot.value) else multiset{})
  }

  ghost function ForestAll(ns: seq<Node>): multiset<FileInput>
    decreases ns, 0
  {
    if ns == [] then multiset{} else ElementInputs(ns[0]) + ForestAll(ns[1..])
  }

  ghost function TreeAll(root: Node): multiset<FileInput>
    decreases root, 2
  {
    ForestAll(root.children)
  }

  lemma {:induction false} NodeCollected(n: Node)
    ensures multiset(NodeInputs(n)) + multiset(NodeShadowInputs(n)) == ElementInputs(n)
    decreases n, 1
  {
    ForestCollected(n.children);
    if n.shadowRoot.Some? {
      CollectedOnce(n.shadowRoot.value);
    }
  }

  lemma {:induction false} ForestCollected(ns: seq<Node>)
    ensures multiset(ForestInputs(ns)) + multiset(ForestShadowInputs(ns)) == ForestAll(ns)
    decreases ns, 0
  {
    if ns != [] {
      NodeCollected(ns[0]);
      ForestCollected(ns[1..]);
    }
  }

  /** Every file input of the tree, shadow trees included, is collected exactly once. */
  lemma {:induction false} CollectedOnce(root: Node)
    ensures multiset(CollectFileInputs(root)) == TreeAll(root)
    decreases root, 2
  {
    ForestCollected(root.children);
  }

  /** The keywords of `DOC_KEYWORDS.resume`, used whatever the document type. */
  const ResumeKeywords: seq<string> := ["resume", "cv", "curriculum vitae"]

  /** Name, id, aria-label, placeholder and label text, joined with spaces and lower-cased. */
  function SearchText(input: FileInput): string {
    ToLower(input.name + " " + input.id + " " + input.ariaLabel + " " + input.placeholder + " " + input.labelText)
  }

  /** `keywords.forEach`: 5 points for each keyword that occurs in `text`, the last one added last. */
  function KeywordPoints(text: string, keywords: seq<string>): (p: nat)
    ensures p <= 5 * |keywords|
    ensures p == 0 <==> forall i :: 0 <= i < |keywords| ==> !Includes(text, keywords[i])
    ensures p % 5 == 0
    decreases |keywords|
  {
    if keywords == [] then 0
    else
      var init := keywords[..|keywords| - 1];
      assert forall i :: 0 <= i < |init| ==> init[i] == keywords[i];
      KeywordPoints(text, init) + (if Includes(text, keywords[|keywords| - 1]) then 5 else 0)
  }

  /** The positions of the keywords that occur in `text`. */
  ghost function FoundKeywords(text: string, keywords: seq<string>): set<int> {
    set i | 0 <= i < |keywords| && Includes(text, keywords[i])
  }

  /** The points are exactly 5 times the number of keywords found. */
  lemma {:induction false} KeywordPointsCount(text: string, keywords: seq<string>)
    ensures KeywordPoints(text, keywords) == 5 * |FoundKeywords(text, keywords)|
    decreases |keywords|
  {
    if keywords == [] {
      assert FoundKeywords(text, keywords) == {};
    } else {
      var n := |keywords| - 1;
      var init := keywords[..n];
      KeywordPointsCount(text, init);
      var last := if Includes(text, keywords[n]) then {n} else {};
      assert FoundKeywords(text, keywords) == FoundKeywords(text, init) + last;
      assert n !in FoundKeywords(text, init);
    }
  }

  predicate HasKeyword(input: FileInput) {
    exists i :: 0 <= i < |ResumeKeywords| && Includes(SearchText(input), ResumeKeywords[i])
  }

  predicate MentionsUpload(input: FileInput) {
    Includes(SearchText(input), "upload") || Includes(SearchText(input), "attachment")
  }

  /** `scoreInput`: keywords, then "upload"/"attachment", then visibility. The document type plays no part. */
  function ScoreInput(input: FileInput, docType: string): (score: int)
    ensures 0 <= score <= 20
    ensures score >= 5 * (if HasKeyword(input) then 1 else 0) + (if input.visible then 3 else 0)
    ensures !HasKeyword(input) ==> score == (if MentionsUpload(input) then 2 else 0) + (if input.visible then 3 else 0)
  {
    KeywordPoints(SearchText(input), ResumeKeywords)
    + (if MentionsUpload(input) then 2 else 0)
    + (if input.visible then 3 else 0)
  }

  /** The score does not depend on the document type asked for. */
  lemma ScoreIgnoresDocType(input: FileInput, a: string, b: string)
    ensures ScoreInput(input, a) == ScoreInput(input, b)
  {
  }

  /** Among inputs of equal visibility, one naming a keyword always beats one that names none. */
  lemma KeywordDominates(a: FileInput, b: FileInput, docType: string)
    requires a.visible == b.visible
    requires HasKeyword(a) && !HasKeyword(b)
    ensures ScoreInput(a, docType) > ScoreInput(b, docType)
  {
  }

  /** `{ input, score }` */
  datatype Candidate = Candidate(input: FileInput, score: int)

  /**
   * `inputs.filter(input => !input.disabled).map(input => ({ input, score }))`, for a
   * scoring function `score` (in the page, `scoreInput` with the requested type).
   */
  function Candidates(inputs: seq<FileInput>, score: FileInput -> int): (cs: seq<Candidate>)
    ensures cs == [] <==> forall i :: 0 <= i < |inputs| ==> inputs[i].disabled
    ensures forall k :: 0 <= k < |cs| ==> cs[k].input in inputs && !cs[k].input.disabled && cs[k].score == score(cs[k].input)
    decreases |inputs|
  {
    if inputs == [] then []
    else
      (if inputs[0].disabled then [] else [Candidate(inputs[0], score(inputs[0]))])
      + Candidates(inputs[1..], score)
  }

  /** Every enabled input is a candidate, with its score. */
  lemma {:induction false} CandidatesComplete(inputs: seq<FileInput>, score: FileInput -> int, x: FileInput)
    requires x in inputs && !x.disabled
    ensures Candidate(x, score(x)) in Candidates(inputs, score)
    decreases |inputs|
  {
    if inputs[0] != x {
      CandidatesComplete(inputs[1..], score, x);
    }
  }

  /** `(a, b) => b.score - a.score` as a key: higher scores first. */
  function ScoreKey(c: Candidate): (int, int) {
    (-c.score, 0)
  }

  /** The head of the candidates sorted by descending score, or null. */
  function PickBest(inputs: seq<FileInput>, score: FileInput -> int): (r: Option<FileInput>)
    ensures r.None? <==> forall i :: 0 <= i < |inputs| ==> inputs[i].disabled
    ensures r.Some? ==> r.value in inputs && !r.value.disabled
    ensures r.Some? ==> forall x :: x in inputs && !x.disabled ==> score(x) <= score(r.value)
  {
    var sorted := Sort(Candidates(inputs, score), ScoreKey);
    SortedHeadIsBest(inputs, score);
    if sorted == [] then None else Some(sorted[0].input)
  }

  /** The head of the sorted candidates is an enabled input that no enabled input outscores. */
  lemma SortedHeadIsBest(inputs: seq<FileInput>, score: FileInput -> int)
    ensures var sorted := Sort(Candidates(inputs, score), ScoreKey);
      sorted != [] ==> (sorted[0].input in inputs && !sorted[0].input.disabled
        && forall x :: x in inputs && !x.disabled ==> score(x) <= score(sorted[0].input))
  {
    var cs := Candidates(inputs, score);
    var sorted := Sort(cs, ScoreKey);
    SortPermutes(cs, ScoreKey);
    SortSorted(cs, ScoreKey);
    if sorted != [] {
      assert sorted[0] in multiset(cs);
      forall x | x in inputs && !x.disabled ensures score(x) <= sorted[0].score {
        var c := Candidate(x, score(x));
        CandidatesComplete(inputs, score, x);
        assert c in multiset(sorted);
        var j :| 0 <= j < |sorted| && sorted[j] == c;
        if j > 0 { assert KeyLe(ScoreKey(sorted[0]), ScoreKey(sorted[j])); }
      }
    }
  }

  /** Input `i` is an enabled candidate with the highest score. */
  ghost predicate IsTop(inputs: seq<FileInput>, score: FileInput -> int, i: int) {
    0 <= i < |inputs| && !inputs[i].disabled
    && forall j :: 0 <= j < |inputs| && !inputs[j].disabled ==> score(inputs[j]) <= score(inputs[i])
  }

  /** Input `i` is a top candidate and no earlier input is one: the tie goes to the earliest. */
  ghost predicate IsFirstTop(inputs: seq<FileInput>, score: FileInput -> int, i: int) {
    IsTop(inputs, score, i) && forall j :: 0 <= j < i ==> !IsTop(inputs, score, j)
  }

  lemma WithKeyCons(c: Candidate, cs: seq<Candidate>, k: (int, int))
    ensures WithKey([c] + cs, ScoreKey, k) == (if ScoreKey(c) == k then [c] else []) + WithKey(cs, ScoreKey, k)
  {
    assert ([c] + cs)[1..] == cs;
  }

  /** The first candidate scoring `t` is the first enabled input scoring `t`; `i` is its position. */
  lemma {:induction false} WithScoreHead(inputs: seq<FileInput>, score: FileInput -> int, t: int) returns (i: nat)
    requires WithKey(Candidates(inputs, score), ScoreKey, (-t, 0)) != []
    ensures i < |inputs| && !inputs[i].disabled && score(inputs[i]) == t
    ensures WithKey(Candidates(inputs, score), ScoreKey, (-t, 0))[0].input == inputs[i]
    ensures forall j :: 0 <= j < i ==> inputs[j].disabled || score(inputs[j]) != t
    decreases |inputs|
  {
    var k := (-t, 0);
    assert inputs != [];
    var rest := Candidates(inputs[1..], score);
    var c := Candidate(inputs[0], score(inputs[0]));
    if !inputs[0].disabled && score(inputs[0]) == t {
      assert Candidates(inputs, score) == [c] + rest;
      WithKeyCons(c, rest, k);
      i := 0;
    } else {
      if inputs[0].disabled {
        assert Candidates(inputs, score) == rest;
      } else {
        assert Candidates(inputs, score) == [c] + rest;
        WithKeyCons(c, rest, k);
      }
      var r := WithScoreHead(inputs[1..], score, t);
      i := r + 1;
      NoneWithScoreShift(inputs, score, t, r);
    }
  }

  /** No input of score `t` among the first `r` after the head, nor at the head: none among the first `r + 1`. */
  lemma NoneWithScoreShift(inputs: seq<FileInput>, score: FileInput -> int, t: int, r: nat)
    requires r < |inputs|
    requires inputs[0].disabled || score(inputs[0]) != t
    requires forall j :: 0 <= j < r ==> inputs[1..][j].disabled || score(inputs[1..][j]) != t
    ensures forall j :: 0 <= j < r + 1 ==> inputs[j].disabled || score(inputs[j]) != t
  {
    forall j | 0 < j < r + 1
      ensures inputs[j].disabled || score(inputs[j]) != t
    {
      assert inputs[j] == inputs[1..][j - 1];
    }
  }

  /** A list's head leads the items sharing its key. */
  lemma WithKeyHead(s: seq<Candidate>, k: (int, int))
    requires s != [] && ScoreKey(s[0]) == k
    ensures WithKey(s, ScoreKey, k) != [] && WithKey(s, ScoreKey, k)[0] == s[0]
  {
    WithKeyCons(s[0], s[1..], k);
    assert s == [s[0]] + s[1..];
  }

  /** The head of the sorted list is a candidate and leads the candidates that share its key. */
  lemma SortedHeadLeads(cs: seq<Candidate>)
    requires cs != []
    ensures var head := Sort(cs, ScoreKey)[0];
      var same := WithKey(cs, ScoreKey, ScoreKey(head));
      head in cs && same != [] && same[0] == head
  {
    var sorted := Sort(cs, ScoreKey);
    SortPermutes(cs, ScoreKey);
    assert sorted[0] in multiset(cs);
    SortStable(cs, ScoreKey, ScoreKey(sorted[0]));
    WithKeyHead(sorted, ScoreKey(sorted[0]));
  }

  /** The picked input leads the candidates that share its score. */
  lemma PickLeadsItsScore(inputs: seq<FileInput>, score: FileInput -> int)
    requires PickBest(inputs, score).Some?
    ensures var best := PickBest(inputs, score).value;
      var same := WithKey(Candidates(inputs, score), ScoreKey, (-score(best), 0));
      same != [] && same[0].input == best
  {
    var cs := Candidates(inputs, score);
    SortedHeadLeads(cs);
    var head := Sort(cs, ScoreKey)[0];
    var best := PickBest(inputs, score).value;
    assert best == head.input;
    var k := ScoreKey(head);
    assert k == (-score(best), 0);
    var same := WithKey(cs, ScoreKey, k);
    assert same != [] && same[0] == head;
  }

  /** Ties go to the earliest input in collection order: the pick is the first top-scoring enabled input. */
  lemma PickIsEarliestTop(inputs: seq<FileInput>, score: FileInput -> int)
    requires PickBest(inputs, score).Some?
    ensures exists i :: IsFirstTop(inputs, score, i) && inputs[i] == PickBest(inputs, score).value
  {
    var best := PickBest(inputs, score).value;
    PickLeadsItsScore(inputs, score);
    var t := score(best);
    var i := WithScoreHead(inputs, score, t);
    assert inputs[i] == best;
    forall j | 0 <= j < |inputs| && !inputs[j].disabled
      ensures score(inputs[j]) <= t
    {
      assert inputs[j] in inputs;
    }
    assert IsTop(inputs, score, i);
    forall j | 0 <= j < i
      ensures !IsTop(inputs, score, j)
    {
      if !inputs[j].disabled {
        assert score(inputs[j]) < score(inputs[i]);
      }
    }
    assert IsFirstTop(inputs, score, i);
  }

  /** `findBestInput(docType)` over the collected inputs. */
  function FindBestInput(inputs: seq<FileInput>, docType: string): (r: Option<FileInput>)
    ensures r.None? <==> forall i :: 0 <= i < |inputs| ==> inputs[i].disabled
    ensures r.Some? ==> r.value in inputs && !r.value.disabled
    ensures r.Some? ==> forall x :: x in inputs && !x.disabled ==> ScoreInput(x, docType) <= ScoreInput(r.value, docType)
  {
    PickBest(inputs, x => ScoreInput(x, docType))
  }

  /** Among the enabled inputs with the top score, the earliest in collection order is chosen. */
  lemma BestIsEarliestTop(inputs: seq<FileInput>, docType: string)
    requires FindBestInput(inputs, docType).Some?
    ensures exists i :: IsFirstTop(inputs, x => ScoreInput(x, docType), i) && inputs[i] == FindBestInput(inputs, docType).value
  {
    PickIsEarliestTop(inputs, x => ScoreInput(x, docType));
  }
}
