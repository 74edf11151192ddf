/** Hybrid memory search: BM25 over a corpus, blended with vector scores, ranked, de-duplicated and
    cut.  Scores are reals.  The tokeniser, the logarithm and the rounding to six places are
    parameters, of which only sign and monotonicity are used. */
module HybridSearch {
  import opened Common
  import opened Ranking

  type Doc = string
  type Token = string
  type Meta = string

  datatype Error = WeightOutOfRange | DivisionByZero
  datatype Result<+T> = Ok(value: T) | Err(error: Error)

  datatype Env = Env(tokenize: string -> seq<Token>, ln: real -> real, round: real -> real)

  ghost predicate ValidEnv(env: Env) { LnOk(env.ln) && RoundOk(env.round) }

  ghost predicate LnOk(ln: real -> real) {
    (forall x :: x > 1.0 ==> ln(x) > 0.0) && (forall x, y :: 0.0 < x <= y ==> ln(x) <= ln(y))
  }

  ghost predicate RoundOk(round: real -> real) {
    round(0.0) == 0.0 && round(1.0) == 1.0 && forall x, y :: x <= y ==> round(x) <= round(y)
  }

  // ---------------------------------------------------------------- BM25

  function TotalLength(docs: seq<seq<Token>>): nat {
    if docs == [] then 0 else TotalLength(docs[..|docs| - 1]) + |docs[|docs| - 1]|
  }

  /** How many documents hold a term. */
  function DocFreq(docs: seq<seq<Token>>, term: Token): (n: nat)
    ensures n <= |docs|
  {
    if docs == [] then 0
    else DocFreq(docs[..|docs| - 1], term) + if term in docs[|docs| - 1] then 1 else 0
  }

  lemma TotalLengthSnoc(docs: seq<seq<Token>>, i: nat)
    requires i < |docs|
    ensures TotalLength(docs[..i + 1]) == TotalLength(docs[..i]) + |docs[i]|
  {
    assert docs[..i + 1][..i] == docs[..i];
  }

  lemma DocFreqSnoc(docs: seq<seq<Token>>, i: nat, term: Token)
    requires i < |docs|
    ensures DocFreq(docs[..i + 1], term) == DocFreq(docs[..i], term) + if term in docs[i] then 1 else 0
  {
    assert docs[..i + 1][..i] == docs[..i];
  }

  /** All tokens of all documents. */
  function Flatten(docs: seq<seq<Token>>): seq<Token> {
    if docs == [] then [] else Flatten(docs[..|docs| - 1]) + docs[|docs| - 1]
  }

  lemma {:induction false} TotalLengthCounts(docs: seq<seq<Token>>)
    ensures TotalLength(docs) == |Flatten(docs)|
  {
    if docs != [] {
      TotalLengthCounts(docs[..|docs| - 1]);
    }
  }

  function Holders(docs: seq<seq<Token>>, term: Token): set<int> { set i | 0 <= i < |docs| && term in docs[i] }

  lemma {:induction false} DocFreqCounts(docs: seq<seq<Token>>, term: Token)
    ensures DocFreq(docs, term) == |Holders(docs, term)|
  {
    if docs == [] {
      assert Holders(docs, term) == {};
    } else {
      var n := |docs| - 1;
      DocFreqCounts(docs[..n], term);
      assert Holders(docs, term) == Holders(docs[..n], term) + if term in docs[n] then {n} else {};
    }
  }

  /** What BM25 says of a tokenised corpus, document by document. */
  datatype Bm25 = Bm25(ln: real -> real, k1: real, b: real, docs: seq<seq<Token>>) {

    ghost predicate Valid() { LnOk(ln) && k1 >= 0.0 && 0.0 <= b <= 1.0 }

    function AvgLen(): real { if docs == [] then 1.0 else TotalLength(docs) as real / |docs| as real }

    /** Scoring a query divides by the average length unless the query has no terms. */
    predicate Defined(terms: seq<Token>) { terms != [] ==> AvgLen() != 0.0 }

    function Rarity(df: nat): real
      requires df <= |docs|
    {
      (|docs| as real - df as real + 0.5) / (df as real + 0.5) + 1.0
    }

    function Idf(term: Token): real {
      var x := ln(Rarity(DocFreq(docs, term)));
      if x > 0.0 then x else 0.0
    }

    function TermScore(tokens: seq<Token>, term: Token): real
      requires AvgLen() != 0.0
    {
      Weighted(Idf(term), multiset(tokens)[term], LengthFactor(b, |tokens|, AvgLen()), k1)
    }

    /** The score of one document: its terms' scores added up. */
    function DocScore(terms: seq<Token>, tokens: seq<Token>): real
      requires Defined(terms)
    {
      if terms == [] then 0.0
      else DocScore(terms[..|terms| - 1], tokens) + TermScore(tokens, terms[|terms| - 1])
    }

    /** In closed form: one more than the documents, over half more than those holding the term. */
    lemma RarityIs(df: nat)
      requires df <= |docs|
      ensures Rarity(df) * (df as real + 0.5) == |docs| as real + 1.0
    {
      var x, d := |docs| as real - df as real + 0.5, df as real + 0.5;
      assert x / d * d == x;
    }

    /** What one term adds: its weight times its count, damped by the count and by how long the
        document is. */
    lemma TermScoreIs(tokens: seq<Token>, term: Token)
      requires Valid() && AvgLen() != 0.0
      ensures Damped(TermScore(tokens, term), ln(Rarity(DocFreq(docs, term))), multiset(tokens)[term] as real,
                     LengthFactor(b, |tokens|, AvgLen()), k1)
    {
      AvgLenSign();
      IdfPositive(term);
      LengthFactorSign(b, |tokens|, AvgLen());
      WeightedIs(Idf(term), multiset(tokens)[term], LengthFactor(b, |tokens|, AvgLen()), k1);
    }

    /** Scores add up over the query's terms, each as often as it occurs in the query. */
    lemma {:induction false} DocScoreAdds(front: seq<Token>, term: Token, rest: seq<Token>, tokens: seq<Token>)
      requires AvgLen() != 0.0
      ensures DocScore(front + [term] + rest, tokens)
           == DocScore(front, tokens) + TermScore(tokens, term) + DocScore(rest, tokens)
    {
      if rest == [] {
        assert front + [term] + rest == front + [term] && (front + [term])[..|front|] == front;
      } else {
        var n := |rest| - 1;
        assert (front + [term] + rest)[..|front| + 1 + n] == front + [term] + rest[..n];
        DocScoreAdds(front, term, rest[..n], tokens);
      }
    }

    lemma AvgLenSign()
      ensures AvgLen() >= 0.0
      ensures AvgLen() == 0.0 <==> docs != [] && TotalLength(docs) == 0
    {
      if docs != [] {
        QuotientSign(TotalLength(docs) as real, |docs| as real);
      }
    }

    /** The floor at 0 never acts. */
    lemma IdfPositive(term: Token)
      requires Valid()
      ensures Idf(term) == ln(Rarity(DocFreq(docs, term))) > 0.0
    {
      var df := DocFreq(docs, term);
      QuotientSign(|docs| as real - df as real + 0.5, df as real + 0.5);
    }

    /** A term in fewer documents weighs no less. */
    lemma RarerWeighsMore(s: Token, t: Token)
      requires Valid() && DocFreq(docs, s) <= DocFreq(docs, t)
      ensures Idf(s) >= Idf(t)
    {
      IdfPositive(s);
      IdfPositive(t);
      var n, d, e := |docs| as real, DocFreq(docs, s) as real, DocFreq(docs, t) as real;
      QuotientSign(n - e + 0.5, e + 0.5);
      QuotientMonotone(n - e + 0.5, n - d + 0.5, e + 0.5);
      QuotientAntitone(n - d + 0.5, d + 0.5, e + 0.5);
    }

    lemma TermScoreSign(tokens: seq<Token>, term: Token)
      requires Valid() && AvgLen() != 0.0
      ensures TermScore(tokens, term) >= 0.0
      ensures TermScore(tokens, term) > 0.0 <==> term in tokens
    {
      AvgLenSign();
      IdfPositive(term);
      LengthFactorSign(b, |tokens|, AvgLen());
      WeightedSign(Idf(term), multiset(tokens)[term], LengthFactor(b, |tokens|, AvgLen()), k1);
    }

    /** A document scores above 0 exactly when it holds a term of the query. */
    lemma {:induction false} ScoreSign(terms: seq<Token>, tokens: seq<Token>)
      requires Valid() && Defined(terms)
      ensures DocScore(terms, tokens) >= 0.0
      ensures DocScore(terms, tokens) > 0.0 <==> exists t :: t in terms && t in tokens
    {
      if terms != [] {
        var front, last := terms[..|terms| - 1], terms[|terms| - 1];
        ScoreSign(front, tokens);
        TermScoreSign(tokens, last);
        assert terms == front + [last];
      }
    }
  }

  function LengthFactor(b: real, length: nat, avgLen: real): real
    requires avgLen != 0.0
  {
    1.0 - b + b * length as real / avgLen
  }

  /** What `tf` occurrences of a term add to a document's score. */
  function Weighted(idf: real, tf: nat, lengthFactor: real, k1: real): real {
    var numerator := tf as real * (k1 + 1.0);
    var denominator := tf as real + k1 * lengthFactor;
    idf * if denominator != 0.0 then numerator / denominator else 0.0
  }

  lemma LengthFactorSign(b: real, length: nat, avgLen: real)
    requires 0.0 <= b <= 1.0 && avgLen > 0.0
    ensures LengthFactor(b, length, avgLen) >= 0.0
  {
    ProductSign(b, length as real);
    QuotientSign(b * length as real, avgLen);
  }

  lemma WeightedSign(idf: real, tf: nat, lengthFactor: real, k1: real)
    requires idf > 0.0 && lengthFactor >= 0.0 && k1 >= 0.0
    ensures Weighted(idf, tf, lengthFactor, k1) >= 0.0
    ensures Weighted(idf, tf, lengthFactor, k1) > 0.0 <==> tf > 0
  {
    var numerator, denominator := tf as real * (k1 + 1.0), tf as real + k1 * lengthFactor;
    ProductSign(k1, lengthFactor);
    ProductSign(tf as real, k1 + 1.0);
    assert tf == 0 ==> numerator == 0.0;
    if denominator != 0.0 {
      QuotientSign(numerator, denominator);
      ProductSign(idf, numerator / denominator);
    }
  }

  /** 1 for a document of average length, more or less in proportion to a longer or shorter one. */
  lemma LengthFactorIs(b: real, length: nat, avgLen: real)
    requires avgLen != 0.0
    ensures (LengthFactor(b, length, avgLen) - 1.0) * avgLen == b * length as real - b * avgLen
  {
    var q := b * length as real / avgLen;
    assert q * avgLen == b * length as real;
  }

  ghost predicate Damped(score: real, idf: real, tf: real, lengthFactor: real, k1: real) {
    score * (tf + k1 * lengthFactor) == idf * (tf * (k1 + 1.0))
  }

  lemma WeightedIs(idf: real, tf: nat, lengthFactor: real, k1: real)
    requires lengthFactor >= 0.0 && k1 >= 0.0
    ensures Damped(Weighted(idf, tf, lengthFactor, k1), idf, tf as real, lengthFactor, k1)
  {
    var numerator, denominator := tf as real * (k1 + 1.0), tf as real + k1 * lengthFactor;
    ProductSign(k1, lengthFactor);
    if denominator == 0.0 {
      assert tf as real == 0.0 && numerator == 0.0;
    } else {
      var q := numerator / denominator;
      assert q * denominator == numerator;
      Regroup(idf, q, denominator);
    }
  }

  lemma Regroup(x: real, y: real, z: real)
    ensures x * y * z == x * (y * z)
  {
  }

  lemma QuotientSign(x: real, d: real)
    requires x >= 0.0 && d > 0.0
    ensures x / d >= 0.0 && (x / d == 0.0 <==> x == 0.0)
  {
    var q := x / d;
    assert q * d == x;
  }

  lemma ProductSign(x: real, y: real)
    requires x >= 0.0 && y >= 0.0
    ensures x * y >= 0.0 && (x > 0.0 && y > 0.0 ==> x * y > 0.0)
  {
  }

  lemma QuotientMonotone(x: real, y: real, d: real)
    requires x <= y && d > 0.0
    ensures x / d <= y / d && (x < y ==> x / d < y / d)
  {
    var p, q := x / d, y / d;
    assert p * d == x && q * d == y;
    assert (q - p) * d == y - x;
  }

  lemma QuotientAntitone(x: real, d: real, e: real)
    requires x >= 0.0 && 0.0 < d <= e
    ensures x / e <= x / d
  {
    var p, q := x / e, x / d;
    QuotientSign(x, e);
    assert p * e == x && q * d == x;
    ProductSign(p, e - d);
    assert (q - p) * d == p * (e - d);
  }

  /** An index, built once from its documents.  Scoring walks the query term by term. */
  class BM25Index {
    const spec: Bm25
    const docLengths: seq<nat>
    const avgLen: real
    var df: map<Token, nat>

    ghost predicate Valid() reads this {
      && |docLengths| == |spec.docs|
      && (forall i | 0 <= i < |docLengths| :: docLengths[i] == |spec.docs[i]|)
      && avgLen == spec.AvgLen()
      && IsDf(spec.docs, df)
    }

    constructor (env: Env, documents: seq<Doc>, k1: real, b: real)
      ensures Valid()
      ensures spec == Bm25(env.ln, k1, b, Tokenized(env, documents))
    {
      var docs := Tokenized(env, documents);
      var lengths: seq<nat> := [];
      var total: nat := 0;
      for i := 0 to |docs|
        invariant |lengths| == i && forall j | 0 <= j < i :: lengths[j] == |docs[j]|
        invariant total == TotalLength(docs[..i])
      {
        lengths := lengths + [|docs[i]|];
        total := total + |docs[i]|;
        TotalLengthSnoc(docs, i);
      }
      assert docs[..|docs|] == docs;
      var freq := BuildDf(docs);
      spec := Bm25(env.ln, k1, b, docs);
      docLengths := lengths;
      avgLen := if docs == [] then 1.0 else total as real / |docs| as real;
      df := freq;
    }

    method IdfOf(term: Token) returns (idf: real)
      requires Valid()
      ensures idf == spec.Idf(term)
    {
      var n := if term in df then df[term] else 0;
      idf := spec.ln((|spec.docs| as real - n as real + 0.5) / (n as real + 0.5) + 1.0);
      if idf < 0.0 {
        idf := 0.0;
      }
    }

    /** Term by term over all documents, which comes to each document's own sum. */
    method Score(terms: seq<Token>) returns (r: Result<seq<real>>)
      requires Valid()
      ensures r.Err? <==> terms != [] && spec.docs != [] && TotalLength(spec.docs) == 0
      ensures r.Err? ==> r.error == DivisionByZero
      ensures r.Ok? ==> spec.Defined(terms) && r.value == DocScores(spec, terms)
    {
      spec.AvgLenSign();
      var n := |spec.docs|;
      var scores := seq(n, _ => 0.0);
      for t := 0 to |terms|
        invariant |scores| == n && (t > 0 && n > 0 ==> avgLen != 0.0)
        invariant spec.Defined(terms[..t])
        invariant forall i | 0 <= i < n :: scores[i] == spec.DocScore(terms[..t], spec.docs[i])
      {
        var idf := IdfOf(terms[t]);
        assert terms[..t + 1][..t] == terms[..t];
        for i := 0 to n
          invariant |scores| == n && (i > 0 ==> avgLen != 0.0)
          invariant forall j | 0 <= j < i :: scores[j] == spec.DocScore(terms[..t + 1], spec.docs[j])
          invariant forall j | i <= j < n :: scores[j] == spec.DocScore(terms[..t], spec.docs[j])
        {
          if avgLen == 0.0 {
            return Err(DivisionByZero);
          }
          var tf := multiset(spec.docs[i])[terms[t]];
          var part := Weighted(idf, tf, LengthFactor(spec.b, docLengths[i], avgLen), spec.k1);
          scores := scores[i := scores[i] + part];
        }
      }
      assert terms[..|terms|] == terms;
      r := Ok(scores);
    }
  }

  function Tokenized(env: Env, documents: seq<Doc>): (docs: seq<seq<Token>>)
    ensures |docs| == |documents| && forall i | 0 <= i < |docs| :: docs[i] == env.tokenize(documents[i])
  {
    seq(|documents|, i requires 0 <= i < |documents| => env.tokenize(documents[i]))
  }

  ghost function DocScores(m: Bm25, terms: seq<Token>): (s: seq<real>)
    requires m.Defined(terms)
    ensures |s| == |m.docs| && forall i | 0 <= i < |s| :: s[i] == m.DocScore(terms, m.docs[i])
  {
    seq(|m.docs|, i requires 0 <= i < |m.docs| => m.DocScore(terms, m.docs[i]))
  }

  ghost predicate IsDf(docs: seq<seq<Token>>, df: map<Token, nat>) {
    forall t :: (if t in df then df[t] else 0) == DocFreq(docs, t)
  }

  /** Once per document and term of it: counts documents, not occurrences. */
  method BuildDf(docs: seq<seq<Token>>) returns (df: map<Token, nat>)
    ensures IsDf(docs, df)
  {
    df := map[];
    for i := 0 to |docs|
      invariant IsDf(docs[..i], df)
    {
      var before := df;
      var rest := set t | t in docs[i];
      while rest != {}
        invariant rest <= set t | t in docs[i]
        invariant forall t | t !in docs[i] || t in rest :: (if t in df then df[t] else 0) == DocFreq(docs[..i], t)
        invariant forall t | t in docs[i] && t !in rest :: t in df && df[t] == DocFreq(docs[..i], t) + 1
        decreases |rest|
      {
        var term :| term in rest;
        df := df[term := if term in df then df[term] + 1 else 1];
        rest := rest - {term};
      }
      forall t ensures (if t in df then df[t] else 0) == DocFreq(docs[..i + 1], t) {
        DocFreqSnoc(docs, i, t);
      }
    }
    assert docs[..|docs|] == docs;
  }

  // ---------------------------------------------------------------- normalisation

  function Least(s: seq<real>): real
    requires s != []
  {
    var last := s[|s| - 1];
    if |s| == 1 || last <= Least(s[..|s| - 1]) then last else Least(s[..|s| - 1])
  }

  function Greatest(s: seq<real>): real
    requires s != []
  {
    var last := s[|s| - 1];
    if |s| == 1 || last >= Greatest(s[..|s| - 1]) then last else Greatest(s[..|s| - 1])
  }

  lemma {:induction false} LeastAndGreatest(s: seq<real>)
    requires s != []
    ensures Least(s) in s && Greatest(s) in s
    ensures forall x | x in s :: Least(s) <= x <= Greatest(s)
  {
    if |s| > 1 {
      LeastAndGreatest(s[..|s| - 1]);
      assert s == s[..|s| - 1] + [s[|s| - 1]];
    }
  }

  /** Where a score lands when the scores of `s` are stretched onto [0, 1]. */
  function Normalise(s: seq<real>, x: real): real
    requires s != []
  {
    var lo, hi := Least(s), Greatest(s);
    if hi == lo then if x > 0.0 then 1.0 else 0.0 else (x - lo) / (hi - lo)
  }

  function MinMaxNormalise(s: seq<real>): (r: seq<real>)
    ensures |r| == |s| && forall i | 0 <= i < |s| :: r[i] == Normalise(s, s[i])
  {
    if s == [] then [] else seq(|s|, i requires 0 <= i < |s| => Normalise(s, s[i]))
  }

  /** Normalised scores keep their order and stay in [0, 1]; unless all are equal, the extremes are
      taken and distinct scores stay distinct. */
  lemma NormaliseKeepsOrder(s: seq<real>, x: real, y: real)
    requires s != [] && x in s && y in s && x <= y
    ensures 0.0 <= Normalise(s, x) <= Normalise(s, y) <= 1.0
    ensures Least(s) != Greatest(s) ==>
              && Normalise(s, Least(s)) == 0.0 && Normalise(s, Greatest(s)) == 1.0
              && (x < y ==> Normalise(s, x) < Normalise(s, y))
  {
    LeastAndGreatest(s);
    var lo, hi := Least(s), Greatest(s);
    if lo != hi {
      QuotientSign(0.0, hi - lo);
      QuotientMonotone(0.0, x - lo, hi - lo);
      QuotientMonotone(x - lo, y - lo, hi - lo);
      QuotientMonotone(y - lo, hi - lo, hi - lo);
      QuotientOfItself(hi - lo);
    }
  }

  /** Stretched linearly; equal scores become 1 if positive and 0 if not. */
  lemma NormaliseIs(s: seq<real>, x: real)
    requires s != [] && x in s
    ensures Normalise(s, x) * (Greatest(s) - Least(s)) == if Greatest(s) == Least(s) then 0.0 else x - Least(s)
    ensures Greatest(s) == Least(s) ==> Normalise(s, x) == if x > 0.0 then 1.0 else 0.0
  {
    LeastAndGreatest(s);
    if Greatest(s) != Least(s) {
      assert (x - Least(s)) / (Greatest(s) - Least(s)) * (Greatest(s) - Least(s)) == x - Least(s);
    }
  }

  lemma QuotientOfItself(d: real)
    requires d > 0.0
    ensures d / d == 1.0
  {
  }

  function Blend(w: real, x: real, y: real): real { w * x + (1.0 - w) * y }

  lemma BlendInRange(w: real, x: real, y: real)
    requires 0.0 <= w <= 1.0 && 0.0 <= x <= 1.0 && 0.0 <= y <= 1.0
    ensures 0.0 <= Blend(w, x, y) <= 1.0
  {
    ProductSign(w, x);
    ProductSign(1.0 - w, y);
    ProductSign(w, 1.0 - x);
    ProductSign(1.0 - w, 1.0 - y);
  }

  /** On the way from the vector score to the text score, the weight's part of it. */
  lemma BlendIs(w: real, x: real, y: real)
    ensures Blend(w, x, y) - y == w * (x - y)
  {
  }

  lemma OnlyBm25Counts(x: real, y: real)
    ensures Blend(1.0, x, y) == x
  {
  }

  lemma RoundInRange(round: real -> real, x: real)
    requires RoundOk(round) && 0.0 <= x <= 1.0
    ensures 0.0 <= round(x) <= 1.0
  {
  }

  // ---------------------------------------------------------------- the search

  /** What the vector search returned, and what a search returns. */
  datatype Hit = Hit(document: Doc, score: real, metadata: Meta)
  datatype Ranked = Ranked(document: Doc, score: real, bm25Score: real, vectorScore: real, metadata: Meta)

  const K1 := 1.5
  const B := 0.75

  function ScoreMap(hits: seq<Hit>): map<Doc, real> {
    if hits == [] then map[]
    else var last := hits[|hits| - 1]; ScoreMap(hits[..|hits| - 1])[last.document := last.score]
  }

  function MetaMap(hits: seq<Hit>): map<Doc, Meta> {
    if hits == [] then map[]
    else var last := hits[|hits| - 1]; MetaMap(hits[..|hits| - 1])[last.document := last.metadata]
  }

  function VectorScore(hits: seq<Hit>, doc: Doc): real {
    var scores := ScoreMap(hits);
    if doc in scores then scores[doc] else 0.0
  }

  function MetaOf(hits: seq<Hit>, doc: Doc): Meta {
    var metas := MetaMap(hits);
    if doc in metas then metas[doc] else ""
  }

  /** Of several hits with one text the last counts. */
  lemma {:induction false} LastHitCounts(hits: seq<Hit>, i: nat)
    requires i < |hits| && forall j | i < j < |hits| :: hits[j].document != hits[i].document
    ensures VectorScore(hits, hits[i].document) == hits[i].score && MetaOf(hits, hits[i].document) == hits[i].metadata
  {
    var front := hits[..|hits| - 1];
    if i < |front| {
      assert front[i] == hits[i];
      LastHitCounts(front, i);
      assert hits[|front|].document != hits[i].document;
    }
  }

  lemma {:induction false} NoHitScoresNothing(hits: seq<Hit>, doc: Doc)
    requires forall i | 0 <= i < |hits| :: hits[i].document != doc
    ensures VectorScore(hits, doc) == 0.0 && MetaOf(hits, doc) == ""
  {
    if hits != [] {
      NoHitScoresNothing(hits[..|hits| - 1], doc);
      assert hits[|hits| - 1].document != doc;
    }
  }

  function Entry(round: real -> real, weight: real, doc: Doc, bm25: real, vector: real, metadata: Meta): Ranked {
    Ranked(doc, round(Blend(weight, bm25, vector)), round(bm25), round(vector), metadata)
  }

  lemma EntryInRange(round: real -> real, weight: real, doc: Doc, bm25: real, vector: real, metadata: Meta)
    requires RoundOk(round) && 0.0 <= weight <= 1.0 && 0.0 <= bm25 <= 1.0 && 0.0 <= vector <= 1.0
    ensures var e := Entry(round, weight, doc, bm25, vector, metadata);
            0.0 <= e.score <= 1.0 && 0.0 <= e.bm25Score <= 1.0 && 0.0 <= e.vectorScore <= 1.0
  {
    BlendInRange(weight, bm25, vector);
    RoundInRange(round, Blend(weight, bm25, vector));
    RoundInRange(round, bm25);
    RoundInRange(round, vector);
  }

  /** One search: what all its scores depend on. */
  datatype Search = Search(env: Env, query: string, weight: real, hits: seq<Hit>, corpus: seq<Doc>) {

    ghost predicate Valid() { ValidEnv(env) && 0.0 <= weight <= 1.0 && corpus != [] && !Fails() }

    function Index(): Bm25 { Bm25(env.ln, K1, B, Tokenized(env, corpus)) }

    function Terms(): seq<Token> { env.tokenize(query) }

    /** The one way to fail: a query with a word in it over a corpus without one. */
    predicate Fails() { Terms() != [] && corpus != [] && TotalLength(Tokenized(env, corpus)) == 0 }

    lemma DefinedUnlessFails()
      ensures !Fails() ==> Index().Defined(Terms())
    {
      Index().AvgLenSign();
    }

    ghost function RawBm25(): (s: seq<real>)
      requires Valid()
      ensures |s| == |corpus|
    {
      DefinedUnlessFails();
      DocScores(Index(), Terms())
    }

    ghost function RawVector(): (s: seq<real>)
      ensures |s| == |corpus| && forall i | 0 <= i < |s| :: s[i] == VectorScore(hits, corpus[i])
    {
      seq(|corpus|, i requires 0 <= i < |corpus| => VectorScore(hits, corpus[i]))
    }

    ghost function NormBm25(doc: Doc): real
      requires Valid()
    {
      DefinedUnlessFails();
      Normalise(RawBm25(), Index().DocScore(Terms(), env.tokenize(doc)))
    }

    ghost function NormVector(doc: Doc): real
      requires Valid()
    {
      Normalise(RawVector(), VectorScore(hits, doc))
    }

    /** The entry for one text: it depends on the text alone, not on where in the corpus it is. */
    ghost function Rank(doc: Doc): Ranked
      requires Valid()
    {
      Entry(env.round, weight, doc, NormBm25(doc), NormVector(doc), MetaOf(hits, doc))
    }

    ghost function Keys(): (s: seq<real>)
      requires Valid()
      ensures |s| == |corpus| && forall i | 0 <= i < |s| :: s[i] == Rank(corpus[i]).score
    {
      seq(|corpus|, i requires 0 <= i < |corpus| => Rank(corpus[i]).score)
    }

    /** The entries of the best `k` distinct texts, best first, earlier in the corpus first among equals. */
    ghost predicate IsAnswer(k: int, out: seq<Ranked>)
      requires Valid()
    {
      exists chosen: seq<nat> :: Top(Keys(), corpus, k, chosen) && out == Entries(chosen)
    }

    ghost function Entries(chosen: seq<nat>): (out: seq<Ranked>)
      requires Valid() && InRange(Keys(), chosen)
      ensures |out| == |chosen| && forall a | 0 <= a < |out| :: out[a] == Rank(corpus[chosen[a]])
    {
      seq(|chosen|, a requires 0 <= a < |chosen| => Rank(corpus[chosen[a]]))
    }

    /** What one entry says: the normalised scores rounded, and rounded after weighing them. */
    lemma RankIs(doc: Doc)
      requires Valid()
      ensures Rank(doc).document == doc && Rank(doc).metadata == MetaOf(hits, doc)
      ensures Rank(doc).bm25Score == env.round(NormBm25(doc)) && Rank(doc).vectorScore == env.round(NormVector(doc))
      ensures Rank(doc).score == env.round(Blend(weight, NormBm25(doc), NormVector(doc)))
    {
    }

    /** The text score is that of this query over this corpus, with the usual damping; the vector
        score is the last hit's. */
    lemma NormsAre(doc: Doc)
      requires Valid()
      ensures Index() == Bm25(env.ln, 1.5, 0.75, Tokenized(env, corpus)) && Index().Defined(env.tokenize(query))
      ensures NormBm25(doc) == Normalise(DocScores(Index(), env.tokenize(query)), Index().DocScore(env.tokenize(query), env.tokenize(doc)))
      ensures NormVector(doc) == Normalise(RawVector(), VectorScore(hits, doc))
    {
      DefinedUnlessFails();
    }

    lemma NormsInRange(doc: Doc)
      requires Valid() && doc in corpus
      ensures 0.0 <= NormBm25(doc) <= 1.0 && 0.0 <= NormVector(doc) <= 1.0
    {
      DefinedUnlessFails();
      var i :| 0 <= i < |corpus| && corpus[i] == doc;
      NormaliseKeepsOrder(RawBm25(), RawBm25()[i], RawBm25()[i]);
      NormaliseKeepsOrder(RawVector(), RawVector()[i], RawVector()[i]);
    }

    lemma ScoresInRange(doc: Doc)
      requires Valid() && doc in corpus
      ensures 0.0 <= Rank(doc).score <= 1.0 && 0.0 <= Rank(doc).bm25Score <= 1.0 && 0.0 <= Rank(doc).vectorScore <= 1.0
    {
      NormsInRange(doc);
      EntryInRange(env.round, weight, doc, NormBm25(doc), NormVector(doc), MetaOf(hits, doc));
    }

    /** What an answer is to its reader. */
    lemma AnswerIsTheBest(k: int, out: seq<Ranked>)
      requires Valid() && IsAnswer(k, out)
      ensures |out| == Min(Max(k, 1), |set d | d in corpus|)
      ensures forall a | 0 <= a < |out| :: out[a].document in corpus && 0.0 <= out[a].score <= 1.0
      ensures forall a, b | 0 <= a < b < |out| :: out[a].document != out[b].document && out[a].score >= out[b].score
      ensures forall d, a | d in corpus && 0 <= a < |out| && (forall b | 0 <= b < |out| :: out[b].document != d) ::
                Rank(d).score <= out[a].score
    {
      var chosen: seq<nat> :| Top(Keys(), corpus, k, chosen) && out == Entries(chosen);
      forall a | 0 <= a < |out| ensures out[a].document in corpus && 0.0 <= out[a].score <= 1.0 {
        ScoresInRange(corpus[chosen[a]]);
      }
      forall a, b | 0 <= a < b < |out| ensures out[a].document != out[b].document && out[a].score >= out[b].score {
        assert Ahead(Keys(), chosen[a], chosen[b]);
        FirstPlacesDiffer(corpus, chosen[a], chosen[b]);
      }
      forall d, a | d in corpus && 0 <= a < |out| && (forall b | 0 <= b < |out| :: out[b].document != d)
        ensures Rank(d).score <= out[a].score
      {
        OmittedScoresLess(k, chosen, d, a);
      }
    }

    lemma OmittedScoresLess(k: int, chosen: seq<nat>, d: Doc, a: nat)
      requires Valid() && Top(Keys(), corpus, k, chosen) && d in corpus && a < |chosen|
      requires forall b | 0 <= b < |chosen| :: Entries(chosen)[b].document != d
      ensures Rank(d).score <= Entries(chosen)[a].score
    {
      var i := FirstPlaceOf(corpus, d);
      assert forall b | 0 <= b < |chosen| :: Entries(chosen)[b].document == corpus[chosen[b]];
      assert i !in chosen;
      assert Ahead(Keys(), chosen[a], i);
    }

    lemma AnswerIsUnique(k: int, out: seq<Ranked>, other: seq<Ranked>)
      requires Valid() && IsAnswer(k, out) && IsAnswer(k, other)
      ensures out == other
    {
      var c: seq<nat> :| Top(Keys(), corpus, k, c) && out == Entries(c);
      var d: seq<nat> :| Top(Keys(), corpus, k, d) && other == Entries(d);
      TopIsUnique(Keys(), corpus, k, c, d);
    }

    /** By text alone, a text with a word of the query never ranks below one without. */
    lemma MatchingTextsFirst(doc: Doc, other: Doc)
      requires Valid() && weight == 1.0 && doc in corpus && other in corpus
      requires exists t :: t in Terms() && t in env.tokenize(doc)
      requires forall t | t in Terms() :: t !in env.tokenize(other)
      ensures Rank(doc).score >= Rank(other).score
    {
      DefinedUnlessFails();
      Index().ScoreSign(Terms(), env.tokenize(doc));
      Index().ScoreSign(Terms(), env.tokenize(other));
      var i :| 0 <= i < |corpus| && corpus[i] == doc;
      var j :| 0 <= j < |corpus| && corpus[j] == other;
      NormaliseKeepsOrder(RawBm25(), RawBm25()[j], RawBm25()[i]);
      assert NormBm25(other) <= NormBm25(doc);
      OnlyBm25Counts(NormBm25(doc), NormVector(doc));
      OnlyBm25Counts(NormBm25(other), NormVector(other));
    }
  }

  lemma FirstPlacesDiffer<T>(s: seq<T>, i: nat, j: nat)
    requires i < |s| && j < |s| && i != j && IsFirst(s, i) && IsFirst(s, j)
    ensures s[i] != s[j]
  {
    if i < j {
      assert s[..j][i] == s[i];
    } else {
      assert s[..i][j] == s[j];
    }
  }

  lemma {:induction false} FirstPlaceOf<T>(s: seq<T>, x: T) returns (i: nat)
    requires x in s
    ensures i < |s| && s[i] == x && IsFirst(s, i)
  {
    i := 0;
    while s[i] != x
      invariant i < |s| && x !in s[..i] && x in s[i..]
      decreases |s| - i
    {
      i := i + 1;
    }
  }

  /** What a search looks through, and what the vector search has to add to it. */
  function HitsUsed(weight: real, documents: Option<seq<Doc>>, found: seq<Hit>): seq<Hit> {
    if 1.0 - weight > 0.0 || documents.None? then found else []
  }

  function Corpus(documents: Option<seq<Doc>>, hits: seq<Hit>): seq<Doc> {
    match documents
    case Some(docs) => docs
    case None => seq(|hits|, i requires 0 <= i < |hits| => hits[i].document)
  }

  function Documents(ranked: seq<Ranked>): (docs: seq<Doc>)
    ensures |docs| == |ranked| && forall i | 0 <= i < |docs| :: docs[i] == ranked[i].document
  {
    seq(|ranked|, i requires 0 <= i < |ranked| => ranked[i].document)
  }

  ghost predicate AreFirst(ranked: seq<Ranked>, n: nat, kept: seq<Ranked>)
    requires n <= |ranked|
  {
    var at := FirstPlaces(Documents(ranked)[..n]);
    |kept| == |at| && forall a | 0 <= a < |at| :: at[a] < |ranked| && kept[a] == ranked[at[a]]
  }

  /** Keeps the first entry of each text until there are `k`; the test comes after the append, so
      the first entry is kept even for `k` below 1. */
  method Dedupe(ranked: seq<Ranked>, k: int) returns (deduped: seq<Ranked>)
    ensures var at := FirstPlaces(Documents(ranked));
            && |deduped| == Min(Max(k, 1), |at|)
            && forall a | 0 <= a < |deduped| :: at[a] < |ranked| && deduped[a] == ranked[at[a]]
  {
    ghost var docs := Documents(ranked);
    var seen: set<Doc> := {};
    deduped := [];
    for i := 0 to |ranked|
      invariant seen == set d | d in docs[..i]
      invariant AreFirst(ranked, i, deduped)
      invariant i == 0 || |deduped| < k
    {
      assert docs[..i + 1][..i] == docs[..i] && docs[..i + 1] == docs[..i] + [docs[i]];
      if ranked[i].document !in seen {
        seen := seen + {ranked[i].document};
        deduped := deduped + [ranked[i]];
      }
      assert AreFirst(ranked, i + 1, deduped);
      FirstPlacesOfPrefix(docs, i + 1);
      if |deduped| >= k {
        return;
      }
    }
    assert docs[..|ranked|] == docs;
  }

  method HybridSearch(env: Env, query: string, k: int, weight: real, documents: Option<seq<Doc>>, found: seq<Hit>)
    returns (r: Result<seq<Ranked>>)
    requires ValidEnv(env)
    ensures var hits := HitsUsed(weight, documents, found);
            var s := Search(env, query, weight, hits, Corpus(documents, hits));
            && hits == (if weight < 1.0 || documents.None? then found else [])
            && (documents.Some? ==> s.corpus == documents.value)
            && (documents.None? ==> |s.corpus| == |found| && forall i | 0 <= i < |found| :: s.corpus[i] == found[i].document)
            && if !(0.0 <= weight <= 1.0) then r == Err(WeightOutOfRange)
            else if s.corpus == [] then r == Ok([])
            else if s.Fails() then r == Err(DivisionByZero)
            else r.Ok? && s.IsAnswer(k, r.value)
  {
    if !(0.0 <= weight <= 1.0) {
      return Err(WeightOutOfRange);
    }
    var vectorWeight := 1.0 - weight;
    var hits := [];
    if vectorWeight > 0.0 || documents.None? {
      hits := found;
    }
    var corpus := Corpus(documents, hits);
    if corpus == [] {
      return Ok([]);
    }
    ghost var s := Search(env, query, weight, hits, corpus);
    var index := new BM25Index(env, corpus, K1, B);
    var scored := index.Score(env.tokenize(query));
    if scored.Err? {
      return Err(scored.error);
    }
    var results := Fuse(s, env, weight, hits, corpus, scored.value);
    var answer := SortAndDedupe(s, k, results);
    r := Ok(answer);
  }

  method Fuse(ghost s: Search, env: Env, weight: real, hits: seq<Hit>, corpus: seq<Doc>, rawBm25: seq<real>)
    returns (results: seq<Ranked>)
    requires s.Valid() && s == Search(env, s.query, weight, hits, corpus) && rawBm25 == s.RawBm25()
    ensures |results| == |corpus| && forall i | 0 <= i < |corpus| :: results[i] == s.Rank(corpus[i])
  {
    var normBm25 := MinMaxNormalise(rawBm25);
    var scores, metas := ScoreMap(hits), MetaMap(hits);
    var rawVector := seq(|corpus|, i requires 0 <= i < |corpus| => if corpus[i] in scores then scores[corpus[i]] else 0.0);
    var normVector := MinMaxNormalise(rawVector);
    assert rawVector == s.RawVector();
    results := [];
    for i := 0 to |corpus|
      invariant |results| == i && forall j | 0 <= j < i :: results[j] == s.Rank(corpus[j])
    {
      var doc := corpus[i];
      var metadata := if doc in metas then metas[doc] else "";
      assert normBm25[i] == s.NormBm25(doc) && normVector[i] == s.NormVector(doc);
      results := results + [Entry(env.round, weight, doc, normBm25[i], normVector[i], metadata)];
    }
  }

  method SortAndDedupe(ghost s: Search, k: int, results: seq<Ranked>) returns (answer: seq<Ranked>)
    requires s.Valid() && |results| == |s.corpus| && forall i | 0 <= i < |results| :: results[i] == s.Rank(s.corpus[i])
    ensures s.IsAnswer(k, answer)
  {
    var keys := seq(|results|, i requires 0 <= i < |results| => results[i].score);
    var order := StableOrder(keys);
    answer := Dedupe(Permuted(results, order), k);
    assert keys == s.Keys();
    assert Documents(Permuted(results, order)) == Permuted(s.corpus, order);
    ghost var firsts := FirstPlaces(Permuted(s.corpus, order));
    ghost var chosen := seq(|answer|, a requires 0 <= a < |answer| => order[firsts[a]]);
    SortedFirstsAreTop(keys, s.corpus, k, firsts, chosen);
    assert answer == s.Entries(chosen);
  }
}
