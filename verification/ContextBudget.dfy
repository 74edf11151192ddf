/** Fitting a conversation into a token budget. */
module ContextBudget {
  import opened Common

  // ---------------------------------------------------------------- words

  /** The characters `str.split()` takes as white space. */
  predicate IsSpace(c: char) {
    var n := c as int;
    9 <= n <= 13 || 28 <= n <= 32 || n == 0x85 || n == 0xA0 || n == 0x1680 || 0x2000 <= n <= 0x200A
    || n == 0x2028 || n == 0x2029 || n == 0x202F || n == 0x205F || n == 0x3000
  }

  function LeadingWord(s: string): (n: nat)
    ensures n <= |s| && forall i | 0 <= i < n :: !IsSpace(s[i])
    ensures n < |s| ==> IsSpace(s[n])
  {
    if s == "" || IsSpace(s[0]) then 0 else 1 + LeadingWord(s[1..])
  }

  function Split(s: string): seq<string>
    decreases |s|
  {
    if s == "" then []
    else if IsSpace(s[0]) then Split(s[1..])
    else
      var n := LeadingWord(s);
      [s[..n]] + Split(s[n..])
  }

  function Join(words: seq<string>): string {
    if words == [] then ""
    else if |words| == 1 then words[0]
    else words[0] + " " + Join(words[1..])
  }

  ghost predicate IsWord(w: string) { w != "" && forall i | 0 <= i < |w| :: !IsSpace(w[i]) }

  lemma {:induction false} SplitGivesWords(s: string)
    ensures forall w | w in Split(s) :: IsWord(w)
    decreases |s|
  {
    if s != "" {
      if IsSpace(s[0]) { SplitGivesWords(s[1..]); } else { SplitGivesWords(s[LeadingWord(s)..]); }
    }
  }

  /** A word followed by the end or by white space is split off whole. */
  lemma SplitWord(w: string, rest: string)
    requires IsWord(w) && (rest == "" || IsSpace(rest[0]))
    ensures Split(w + rest) == [w] + Split(rest)
  {
    var s := w + rest;
    var n := LeadingWord(s);
    assert forall i | 0 <= i < |w| :: s[i] == w[i];
    assert rest != "" ==> s[|w|] == rest[0];
    assert n == |w|;
    assert s[..n] == w && s[n..] == rest;
  }

  /** Joining words, adding a mark to the last one, and splitting gives them back. */
  lemma {:induction false} SplitOfJoin(words: seq<string>, mark: string)
    requires words != [] && (forall w | w in words :: IsWord(w)) && forall i | 0 <= i < |mark| :: !IsSpace(mark[i])
    ensures Split(Join(words) + mark) == words[..|words| - 1] + [words[|words| - 1] + mark]
  {
    var w := words[0];
    assert w in words;
    if |words| == 1 {
      SplitWord(w + mark, "");
      assert w + mark + "" == Join(words) + mark;
      assert Split("") == [];
    } else {
      SplitOfJoin(words[1..], mark);
      JoinStep(words, mark);
      SplitWord(w, " " + (Join(words[1..]) + mark));
      SplitSpace(Join(words[1..]) + mark);
    }
  }

  lemma JoinStep(words: seq<string>, mark: string)
    requires |words| > 1
    ensures Join(words) + mark == words[0] + (" " + (Join(words[1..]) + mark))
    ensures words[..|words| - 1] + [words[|words| - 1] + mark]
         == [words[0]] + (words[1..][..|words| - 2] + [words[1..][|words| - 2] + mark])
  {
    Regroup(words[0], " ", Join(words[1..]), mark);
    MarkStep(words[0], words[1..], mark);
    assert words == [words[0]] + words[1..];
  }

  lemma Regroup(a: string, b: string, c: string, d: string)
    ensures a + b + c + d == a + (b + (c + d))
  {
  }

  lemma MarkStep(w: string, rest: seq<string>, mark: string)
    requires rest != []
    ensures var words := [w] + rest;
            words[..|words| - 1] + [words[|words| - 1] + mark] == [w] + (rest[..|rest| - 1] + [rest[|rest| - 1] + mark])
  {
  }

  lemma SplitSpace(s: string)
    ensures Split(" " + s) == Split(s)
  {
    assert (" " + s)[1..] == s;
  }

  function Flatten(words: seq<string>): string { if words == [] then "" else words[0] + Flatten(words[1..]) }

  function NonSpaces(s: string): string {
    if s == "" then "" else (if IsSpace(s[0]) then "" else [s[0]]) + NonSpaces(s[1..])
  }

  lemma {:induction false} NonSpacesOfWord(w: string, rest: string)
    requires forall i | 0 <= i < |w| :: !IsSpace(w[i])
    ensures NonSpaces(w + rest) == w + NonSpaces(rest)
  {
    if w == "" {
      assert w + rest == rest;
    } else {
      assert (w + rest)[1..] == w[1..] + rest;
      NonSpacesOfWord(w[1..], rest);
    }
  }

  /** Splitting drops white space and nothing else. */
  lemma {:induction false} SplitKeepsCharacters(s: string)
    ensures Flatten(Split(s)) == NonSpaces(s)
    decreases |s|
  {
    if s != "" {
      if IsSpace(s[0]) {
        SplitKeepsCharacters(s[1..]);
      } else {
        var n := LeadingWord(s);
        SplitKeepsCharacters(s[n..]);
        NonSpacesOfWord(s[..n], s[n..]);
        assert s == s[..n] + s[n..];
      }
    }
  }

  // ---------------------------------------------------------------- tokens

  datatype Message = Message(role: string, content: string)

  /** Any way of rounding 1.3 tokens a word to a whole number, at least 1 for a non-empty text. */
  ghost predicate Rounds(tok: nat -> nat) {
    tok(0) == 0 && forall w: nat | w > 0 :: 13 * w - 5 <= 10 * tok(w) <= 13 * w + 5
  }

  function EstimateTokens(tok: nat -> nat, text: string): nat { tok(|Split(text)|) }

  function MessageTokens(tok: nat -> nat, m: Message): nat { EstimateTokens(tok, m.content) + 4 }

  function CountTokens(tok: nat -> nat, ms: seq<Message>): nat {
    if ms == [] then 0 else MessageTokens(tok, ms[0]) + CountTokens(tok, ms[1..])
  }

  lemma {:induction false} CountConcat(tok: nat -> nat, a: seq<Message>, b: seq<Message>)
    ensures CountTokens(tok, a + b) == CountTokens(tok, a) + CountTokens(tok, b)
  {
    if a == [] {
      assert a + b == b;
    } else {
      assert (a + b)[1..] == a[1..] + b;
      CountConcat(tok, a[1..], b);
    }
  }

  /** Every message costs its estimate and 4 tokens more. */
  lemma EveryMessageCosts(tok: nat -> nat, a: seq<Message>, m: Message, b: seq<Message>)
    ensures CountTokens(tok, a + [m] + b) == CountTokens(tok, a) + (tok(|Split(m.content)|) + 4) + CountTokens(tok, b)
  {
    CountConcat(tok, a + [m], b);
    CountConcat(tok, a, [m]);
    assert [m][1..] == [] && CountTokens(tok, []) == 0;
  }

  // ---------------------------------------------------------------- specification

  const SUMMARY_RESERVE := 200
  const SYSTEM := "system"

  function SystemOf(ms: seq<Message>): seq<Message> {
    if ms == [] then []
    else if ms[0].role == SYSTEM then [ms[0]] + SystemOf(ms[1..])
    else SystemOf(ms[1..])
  }

  function RestOf(ms: seq<Message>): seq<Message> {
    if ms == [] then []
    else if ms[0].role != SYSTEM then [ms[0]] + RestOf(ms[1..])
    else RestOf(ms[1..])
  }

  /** A message goes to the part its role says, behind those before it and ahead of those after. */
  lemma PartsOf(a: seq<Message>, m: Message, b: seq<Message>)
    ensures SystemOf(a + [m] + b) == SystemOf(a) + (if m.role == "system" then [m] else []) + SystemOf(b)
    ensures RestOf(a + [m] + b) == RestOf(a) + (if m.role != "system" then [m] else []) + RestOf(b)
  {
    SystemConcat(a + [m], b);
    SystemConcat(a, [m]);
    RestConcat(a + [m], b);
    RestConcat(a, [m]);
    OneMessage(m);
  }

  lemma OneMessage(m: Message)
    ensures SystemOf([m]) == if m.role == "system" then [m] else []
    ensures RestOf([m]) == if m.role != "system" then [m] else []
  {
    assert [m][1..] == [];
  }

  lemma {:induction false} RestConcat(a: seq<Message>, b: seq<Message>)
    ensures RestOf(a + b) == RestOf(a) + RestOf(b)
  {
    if a == [] {
      assert a + b == b;
    } else {
      assert (a + b)[1..] == a[1..] + b;
      RestConcat(a[1..], b);
    }
  }

  datatype Engine = Engine(recentTurns: int, summariser: seq<Message> -> string, tok: nat -> nat)

  /** Where the recent messages start; a slice past the end is empty. */
  function RecentStart(e: Engine, n: nat): (k: nat)
    ensures k <= n
  {
    var k := if n - e.recentTurns > 0 then n - e.recentTurns else 0;
    if k <= n then k else n
  }

  function MaxWords(budget: int): (n: nat)
    requires budget > 0
    ensures n >= 1
  {
    Max(1, Quotient(10 * Min(SUMMARY_RESERVE, Quotient(budget, 3)), 13) - 4)
  }

  function SummaryText(e: Engine, older: seq<Message>, budget: int): string
    requires budget > 0
  {
    if older == [] then ""
    else
      var raw := e.summariser(older);
      var words := Split(raw);
      if |words| > MaxWords(budget) then Join(words[..MaxWords(budget)]) + "..." else raw
  }

  function SummaryTokens(e: Engine, text: string): nat {
    if text != "" then EstimateTokens(e.tok, text) + 4 else 0
  }

  function SummaryMessages(text: string): seq<Message> {
    if text != "" then [Message(SYSTEM, text)] else []
  }

  /** `kept` is the longest suffix of `ms` that fits into `budget` tokens. */
  ghost predicate LongestFittingSuffix(tok: nat -> nat, ms: seq<Message>, kept: seq<Message>, budget: int) {
    && |kept| <= |ms| && kept == ms[|ms| - |kept|..]
    && (kept == [] || CountTokens(tok, kept) <= budget)
    && forall j | 0 <= j < |ms| - |kept| :: CountTokens(tok, ms[j..]) > budget
  }

  /** What compaction must produce: the summary of the older messages, if any text is left of it,
      and the longest suffix of the recent ones that fits beside it. */
  ghost predicate Compacted(e: Engine, ms: seq<Message>, budget: int, out: seq<Message>)
    requires budget > 0
  {
    exists kept :: CompactedTo(e, ms, budget, out, kept)
  }

  ghost predicate CompactedTo(e: Engine, ms: seq<Message>, budget: int, out: seq<Message>, kept: seq<Message>)
    requires budget > 0
  {
    var start := RecentStart(e, |ms|);
    var text := SummaryText(e, ms[..start], budget);
    out == SummaryMessages(text) + kept
    && LongestFittingSuffix(e.tok, ms[start..], kept, budget - SummaryTokens(e, text))
  }

  // ---------------------------------------------------------------- the same in plain terms

  /** The greatest number of words for which a third of the budget, and at most 200 tokens, leaves
      room at 1.3 tokens a word beside 4 more words; one at the least. */
  ghost predicate IsMaxWords(budget: int, n: int)
    requires budget > 0
  {
    var slot := if budget < 600 then Quotient(budget, 3) else 200;
    n >= 1 && (n == 1 || 13 * (n + 4) <= 10 * slot) && 10 * slot < 13 * (n + 5)
  }

  lemma QuotientBounds(n: nat, d: nat)
    requires d > 0
    ensures Quotient(n, d) * d <= n < Quotient(n, d) * d + d
  {
    QuotientIsDivision(n, d);
    DivisionFits(n, d);
  }

  lemma MaxWordsIs(budget: int)
    requires budget > 0
    ensures IsMaxWords(budget, MaxWords(budget))
    ensures MaxWords(budget) > 1 ==> 39 * (MaxWords(budget) + 4) <= 10 * budget
  {
    var third := Quotient(budget, 3);
    QuotientBounds(budget, 3);
    QuotientBounds(10 * Min(200, third), 13);
  }

  /** The summary of some messages: nothing for none, else what the summariser says, cut after the
      allowed number of words. */
  ghost predicate Summarises(e: Engine, older: seq<Message>, budget: int, text: string)
    requires budget > 0
  {
    if older == [] then text == ""
    else
      exists max :: IsMaxWords(budget, max)
        && text == if |Split(e.summariser(older))| > max then Join(Split(e.summariser(older))[..max]) + "..."
                   else e.summariser(older)
  }

  lemma SummaryTextIs(e: Engine, older: seq<Message>, budget: int)
    requires budget > 0
    ensures Summarises(e, older, budget, SummaryText(e, older, budget))
  {
    MaxWordsIs(budget);
  }

  /** How many messages are kept as they are, if they fit. */
  function RecentCount(recentTurns: int, n: nat): (r: nat)
    ensures r <= n
  {
    Max(0, Min(recentTurns, n))
  }

  lemma RecentStartIs(e: Engine, n: nat)
    ensures RecentStart(e, n) == n - RecentCount(e.recentTurns, n)
  {
  }

  /** The summary of all but the last `recentTurns` messages, and the longest suffix of those that
      fits beside it. */
  ghost predicate SummaryThenRecent(e: Engine, ms: seq<Message>, budget: int, text: string, kept: seq<Message>)
    requires budget > 0
  {
    var start := |ms| - RecentCount(e.recentTurns, |ms|);
    && Summarises(e, ms[..start], budget, text)
    && LongestFittingSuffix(e.tok, ms[start..], kept, budget - if text == "" then 0 else e.tok(|Split(text)|) + 4)
  }

  function WithSummary(text: string, kept: seq<Message>): seq<Message> {
    if text == "" then kept else [Message("system", text)] + kept
  }

  lemma SummaryIs(e: Engine, text: string, kept: seq<Message>)
    ensures SummaryMessages(text) + kept == WithSummary(text, kept)
    ensures SummaryTokens(e, text) == if text == "" then 0 else e.tok(|Split(text)|) + 4
  {
  }

  lemma TrimmedIs(e: Engine, ms: seq<Message>, budget: int, kept: seq<Message>)
    requires budget > 0
    requires var start := RecentStart(e, |ms|);
             LongestFittingSuffix(e.tok, ms[start..], kept, budget - SummaryTokens(e, SummaryText(e, ms[..start], budget)))
    ensures SummaryThenRecent(e, ms, budget, SummaryText(e, ms[..RecentStart(e, |ms|)], budget), kept)
  {
    var start := RecentStart(e, |ms|);
    RecentStartIs(e, |ms|);
    SummaryTextIs(e, ms[..start], budget);
    SummaryIs(e, SummaryText(e, ms[..start], budget), kept);
  }

  lemma CompactedIs(e: Engine, ms: seq<Message>, budget: int, out: seq<Message>) returns (text: string, kept: seq<Message>)
    requires budget > 0 && Compacted(e, ms, budget, out)
    ensures SummaryThenRecent(e, ms, budget, text, kept) && out == WithSummary(text, kept)
  {
    var start := RecentStart(e, |ms|);
    text := SummaryText(e, ms[..start], budget);
    kept :| CompactedTo(e, ms, budget, out, kept);
    TrimmedIs(e, ms, budget, kept);
    SummaryIs(e, text, kept);
  }

  /** No longer suffix fits. */
  lemma LongestIsLongest(tok: nat -> nat, ms: seq<Message>, kept: seq<Message>, budget: int, m: nat)
    requires LongestFittingSuffix(tok, ms, kept, budget) && m <= |ms|
    requires m == 0 || CountTokens(tok, ms[|ms| - m..]) <= budget
    ensures m <= |kept|
  {
  }

  lemma SummaryIsUnique(e: Engine, older: seq<Message>, budget: int, text: string, text': string)
    requires budget > 0 && Summarises(e, older, budget, text) && Summarises(e, older, budget, text')
    ensures text == text'
  {
  }

  // ---------------------------------------------------------------- the engine's methods

  /** Drops messages from the front until the rest fits or none is left. */
  method Trim(tok: nat -> nat, recent: seq<Message>, budget: int) returns (kept: seq<Message>)
    ensures LongestFittingSuffix(tok, recent, kept, budget)
  {
    kept := recent;
    var total: int := CountTokens(tok, kept);
    ghost var dropped: nat := 0;
    while total > budget && kept != []
      invariant dropped <= |recent| && kept == recent[dropped..]
      invariant total == CountTokens(tok, kept)
      invariant forall j | 0 <= j < dropped :: CountTokens(tok, recent[j..]) > budget
      decreases |kept|
    {
      total := total - MessageTokens(tok, kept[0]);
      kept := kept[1..];
      dropped := dropped + 1;
    }
  }

  method Compact(e: Engine, ms: seq<Message>, budget: int)
    returns (out: seq<Message>, ghost summary: string, ghost recent: seq<Message>)
    requires budget > 0
    ensures Compacted(e, ms, budget, out)
    ensures SummaryThenRecent(e, ms, budget, summary, recent) && out == WithSummary(summary, recent)
  {
    var start := RecentStart(e, |ms|);
    var text := SummaryText(e, ms[..start], budget);
    var kept := Trim(e.tok, ms[start..], budget - SummaryTokens(e, text));
    out := SummaryMessages(text) + kept;
    summary, recent := text, kept;
    assert CompactedTo(e, ms, budget, out, kept);
    TrimmedIs(e, ms, budget, kept);
    SummaryIs(e, text, kept);
  }

  /** The four ways `build_context` can end. */
  ghost predicate Built(e: Engine, ms: seq<Message>, budget: int, out: seq<Message>) {
    var system, rest := SystemOf(ms), RestOf(ms);
    var remaining := budget - CountTokens(e.tok, system);
    if ms == [] then out == []
    else if remaining <= 0 then out == system
    else if CountTokens(e.tok, rest) <= remaining then out == ms
    else |system| <= |out| && out[..|system|] == system && Compacted(e, rest, remaining, out[|system|..])
  }

  method BuildContext(e: Engine, ms: seq<Message>, budget: int)
    returns (out: seq<Message>, ghost text: string, ghost kept: seq<Message>)
    ensures Built(e, ms, budget, out)
    ensures var rest, remaining := RestOf(ms), budget - CountTokens(e.tok, SystemOf(ms));
            && (ms == [] ==> out == [])
            && (ms != [] && remaining <= 0 ==> out == SystemOf(ms))
            && (remaining > 0 && CountTokens(e.tok, rest) <= remaining ==> out == ms)
            && (ms != [] && 0 < remaining < CountTokens(e.tok, rest) ==>
                  out == SystemOf(ms) + WithSummary(text, kept) && SummaryThenRecent(e, rest, remaining, text, kept))
  {
    text, kept := "", [];
    if ms == [] {
      return [], text, kept;
    }
    var system, rest := SystemOf(ms), RestOf(ms);
    var remaining := budget - CountTokens(e.tok, system);
    if remaining <= 0 {
      return system, text, kept;
    }
    if CountTokens(e.tok, rest) <= remaining {
      return ms, text, kept;
    }
    var compact;
    compact, text, kept := Compact(e, rest, remaining);
    out := system + compact;
    BuiltFromParts(e, ms, budget, compact);
  }

  lemma BuiltFromParts(e: Engine, ms: seq<Message>, budget: int, compact: seq<Message>)
    requires ms != [] && budget - CountTokens(e.tok, SystemOf(ms)) > 0
    requires CountTokens(e.tok, RestOf(ms)) > budget - CountTokens(e.tok, SystemOf(ms))
    requires Compacted(e, RestOf(ms), budget - CountTokens(e.tok, SystemOf(ms)), compact)
    ensures Built(e, ms, budget, SystemOf(ms) + compact)
  {
    var system := SystemOf(ms);
    var out := system + compact;
    assert out[..|system|] == system;
    assert out[|system|..] == compact;
  }

  lemma {:induction false} CountParts(tok: nat -> nat, ms: seq<Message>)
    ensures CountTokens(tok, ms) == CountTokens(tok, SystemOf(ms)) + CountTokens(tok, RestOf(ms))
  {
    if ms != [] {
      CountParts(tok, ms[1..]);
      var one := if ms[0].role == SYSTEM then SystemOf(ms) else RestOf(ms);
      assert one[1..] == if ms[0].role == SYSTEM then SystemOf(ms[1..]) else RestOf(ms[1..]);
    }
  }

  // ---------------------------------------------------------------- the budget

  /** Whether the call can keep its promise, read off its arguments: the system messages leave
      something, and either all fits or the truncated summary of the older messages does. */
  ghost predicate CanFit(e: Engine, ms: seq<Message>, budget: int) {
    var rest := RestOf(ms);
    var remaining := budget - CountTokens(e.tok, SystemOf(ms));
    remaining >= 0
    && (remaining == 0 || CountTokens(e.tok, rest) <= remaining
        || SummaryTokens(e, SummaryText(e, rest[..RecentStart(e, |rest|)], remaining)) <= remaining)
  }

  lemma CompactedCase(e: Engine, system: seq<Message>, rest: seq<Message>, remaining: int, out: seq<Message>)
    requires remaining > 0 && |system| <= |out| && out[..|system|] == system
    requires Compacted(e, rest, remaining, out[|system|..])
    ensures CountTokens(e.tok, out) - CountTokens(e.tok, system) <= remaining
            <==> SummaryTokens(e, SummaryText(e, rest[..RecentStart(e, |rest|)], remaining)) <= remaining
  {
    CompactedTotal(e, rest, remaining, out[|system|..]);
    CountConcat(e.tok, system, out[|system|..]);
    assert out == system + out[|system|..];
  }

  /** The result stays within the budget exactly when it can. */
  lemma BuiltWithinBudgetIff(e: Engine, ms: seq<Message>, budget: int, out: seq<Message>)
    requires Built(e, ms, budget, out)
    ensures CountTokens(e.tok, out) <= budget <==> CanFit(e, ms, budget)
  {
    var system, rest := SystemOf(ms), RestOf(ms);
    var remaining := budget - CountTokens(e.tok, system);
    if ms == [] {
    } else if remaining <= 0 {
    } else if CountTokens(e.tok, rest) <= remaining {
      CountParts(e.tok, ms);
    } else {
      CompactedCase(e, system, rest, remaining, out);
    }
  }

  lemma CompactedTotal(e: Engine, ms: seq<Message>, budget: int, out: seq<Message>)
    requires budget > 0 && Compacted(e, ms, budget, out)
    ensures CountTokens(e.tok, out) <= budget
            <==> SummaryTokens(e, SummaryText(e, ms[..RecentStart(e, |ms|)], budget)) <= budget
  {
    var start := RecentStart(e, |ms|);
    var text := SummaryText(e, ms[..start], budget);
    var kept :| CompactedTo(e, ms, budget, out, kept);
    CountConcat(e.tok, SummaryMessages(text), kept);
    assert CountTokens(e.tok, SummaryMessages(text)) == SummaryTokens(e, text) by {
      if text != "" { assert SummaryMessages(text)[1..] == []; }
    }
  }

  /** The truncated summary has at most the allowed number of words. */
  lemma SummaryWords(e: Engine, older: seq<Message>, budget: int)
    requires budget > 0
    ensures |Split(SummaryText(e, older, budget))| <= MaxWords(budget)
  {
    if older != [] {
      var words := Split(e.summariser(older));
      SplitGivesWords(e.summariser(older));
      if |words| > MaxWords(budget) {
        SplitOfJoin(words[..MaxWords(budget)], "...");
      }
    }
  }

  /** With 5 tokens or more left, the summary message always fits; with fewer it fits exactly
      when there is no text, or 4 are left and the text is blank. */
  lemma SummaryFits(e: Engine, older: seq<Message>, budget: int)
    requires Rounds(e.tok) && budget > 0
    ensures var text := SummaryText(e, older, budget);
            SummaryTokens(e, text) <= budget <==> budget >= 5 || text == "" || (budget == 4 && Split(text) == [])
  {
    SummaryWords(e, older, budget);
    var text := SummaryText(e, older, budget);
    var n := |Split(text)|;
    assert e.tok(1) == 1;
    MaxWordsIs(budget);
    if n > 1 {
      assert 10 * e.tok(n) <= 13 * n + 5;
      assert n <= MaxWords(budget);
    }
  }

  /** Main result: `build_context` stays within the budget whenever the system messages leave at
      least 5 tokens, for every summariser and every rounding. */
  lemma FiveTokensSuffice(e: Engine, ms: seq<Message>, budget: int, out: seq<Message>)
    requires Rounds(e.tok) && Built(e, ms, budget, out) && budget - CountTokens(e.tok, SystemOf(ms)) >= 5
    ensures CountTokens(e.tok, out) <= budget
  {
    FiveTokensFit(e, ms, budget);
    BuiltWithinBudgetIff(e, ms, budget, out);
  }

  lemma FiveTokensFit(e: Engine, ms: seq<Message>, budget: int)
    requires Rounds(e.tok) && budget - CountTokens(e.tok, SystemOf(ms)) >= 5
    ensures CanFit(e, ms, budget)
  {
    var rest := RestOf(ms);
    SummaryFits(e, rest[..RecentStart(e, |rest|)], budget - CountTokens(e.tok, SystemOf(ms)));
  }

  /** Four tokens do not: when an old message does not fit and is summarised in a word, the
      summary alone overflows. */
  lemma FourTokensDoNot(e: Engine, ms: seq<Message>, budget: int, out: seq<Message>)
    requires Rounds(e.tok) && Built(e, ms, budget, out)
    requires budget - CountTokens(e.tok, SystemOf(ms)) == 4 && CountTokens(e.tok, RestOf(ms)) > 4
    requires RecentStart(e, |RestOf(ms)|) > 0 && Split(e.summariser(RestOf(ms)[..RecentStart(e, |RestOf(ms)|)])) != []
    ensures CountTokens(e.tok, out) > budget
  {
    FourTokensCannotFit(e, ms, budget);
    BuiltWithinBudgetIff(e, ms, budget, out);
  }

  lemma FourTokensCannotFit(e: Engine, ms: seq<Message>, budget: int)
    requires Rounds(e.tok) && budget - CountTokens(e.tok, SystemOf(ms)) == 4 && CountTokens(e.tok, RestOf(ms)) > 4
    requires RecentStart(e, |RestOf(ms)|) > 0 && Split(e.summariser(RestOf(ms)[..RecentStart(e, |RestOf(ms)|)])) != []
    ensures !CanFit(e, ms, budget)
  {
    var rest := RestOf(ms);
    var older := rest[..RecentStart(e, |rest|)];
    SummaryFits(e, older, 4);
    SummaryKeepsAWord(e, older, 4);
  }

  lemma SummaryKeepsAWord(e: Engine, older: seq<Message>, budget: int)
    requires budget > 0 && older != [] && Split(e.summariser(older)) != []
    ensures Split(SummaryText(e, older, budget)) != [] && SummaryText(e, older, budget) != ""
  {
    SplitGivesWords(e.summariser(older));
    var words, n := Split(e.summariser(older)), MaxWords(budget);
    if |words| > n {
      SplitOfJoin(words[..n], "...");
    }
    assert Split("") == [];
  }

  /** Whatever the budget, every system message is kept, and they keep their order. */
  lemma SystemMessagesKept(e: Engine, ms: seq<Message>, budget: int, out: seq<Message>)
    requires Built(e, ms, budget, out)
    ensures |SystemOf(ms)| <= |SystemOf(out)| && SystemOf(out)[..|SystemOf(ms)|] == SystemOf(ms)
  {
    if out != ms {
      BuiltStartsWithSystem(e, ms, budget, out);
      SystemPrefixKept(ms, out);
    }
  }

  lemma BuiltStartsWithSystem(e: Engine, ms: seq<Message>, budget: int, out: seq<Message>)
    requires Built(e, ms, budget, out) && out != ms
    ensures |SystemOf(ms)| <= |out| && out[..|SystemOf(ms)|] == SystemOf(ms)
  {
  }

  lemma SystemPrefixKept(ms: seq<Message>, out: seq<Message>)
    requires |SystemOf(ms)| <= |out| && out[..|SystemOf(ms)|] == SystemOf(ms)
    ensures |SystemOf(ms)| <= |SystemOf(out)| && SystemOf(out)[..|SystemOf(ms)|] == SystemOf(ms)
  {
    var system := SystemOf(ms);
    AllSystem(ms);
    SystemConcat(system, out[|system|..]);
    assert out == system + out[|system|..];
  }

  lemma BuiltCompact(e: Engine, ms: seq<Message>, budget: int, out: seq<Message>) returns (compact: seq<Message>)
    requires Built(e, ms, budget, out)
    requires 0 < budget - CountTokens(e.tok, SystemOf(ms)) < CountTokens(e.tok, RestOf(ms))
    ensures Compacted(e, RestOf(ms), budget - CountTokens(e.tok, SystemOf(ms)), compact) && out == SystemOf(ms) + compact
  {
    compact := out[|SystemOf(ms)|..];
    SplitAt(out, |SystemOf(ms)|);
  }

  lemma SplitAt(ms: seq<Message>, n: nat)
    requires n <= |ms|
    ensures ms == ms[..n] + ms[n..]
  {
  }

  /** The last `recentTurns` messages fit beside the summary of the others, which is `text`. */
  ghost predicate RecentFit(e: Engine, ms: seq<Message>, budget: int, text: string)
    requires budget > 0
  {
    var start := |ms| - RecentCount(e.recentTurns, |ms|);
    && Summarises(e, ms[..start], budget, text)
    && CountTokens(e.tok, ms[start..]) <= budget - if text == "" then 0 else e.tok(|Split(text)|) + 4
  }

  /** Then the result is the system messages, that summary, and all of those messages. */
  lemma RecentMessagesKept(e: Engine, ms: seq<Message>, budget: int, out: seq<Message>, rest: seq<Message>, remaining: int, text: string)
    requires Built(e, ms, budget, out)
    requires rest == RestOf(ms) && remaining == budget - CountTokens(e.tok, SystemOf(ms))
    requires 0 < remaining < CountTokens(e.tok, rest) && RecentFit(e, rest, remaining, text)
    ensures out == SystemOf(ms) + WithSummary(text, rest[|rest| - RecentCount(e.recentTurns, |rest|)..])
  {
    var compact := BuiltCompact(e, ms, budget, out);
    CompactedKeepsRecent(e, rest, remaining, compact, text);
  }

  lemma CompactedKeepsRecent(e: Engine, ms: seq<Message>, budget: int, out: seq<Message>, text: string)
    requires budget > 0 && Compacted(e, ms, budget, out) && RecentFit(e, ms, budget, text)
    ensures out == WithSummary(text, ms[|ms| - RecentCount(e.recentTurns, |ms|)..])
  {
    var text', kept := CompactedIs(e, ms, budget, out);
    RecentAllKept(e, ms, budget, text, text', kept);
  }

  lemma RecentAllKept(e: Engine, ms: seq<Message>, budget: int, text: string, text': string, kept: seq<Message>)
    requires budget > 0 && RecentFit(e, ms, budget, text)
    requires SummaryThenRecent(e, ms, budget, text', kept)
    ensures text' == text && kept == ms[|ms| - RecentCount(e.recentTurns, |ms|)..]
  {
    var start := |ms| - RecentCount(e.recentTurns, |ms|);
    SummaryIsUnique(e, ms[..start], budget, text, text');
    WhollyFitting(e.tok, ms[start..], kept, budget - if text == "" then 0 else e.tok(|Split(text)|) + 4);
  }

  lemma WhollyFitting(tok: nat -> nat, ms: seq<Message>, kept: seq<Message>, budget: int)
    requires LongestFittingSuffix(tok, ms, kept, budget) && CountTokens(tok, ms) <= budget
    ensures kept == ms
  {
    assert ms[|ms| - |ms|..] == ms;
    LongestIsLongest(tok, ms, kept, budget, |ms|);
  }

  lemma {:induction false} AllSystem(ms: seq<Message>)
    ensures SystemOf(SystemOf(ms)) == SystemOf(ms)
  {
    if ms != [] {
      AllSystem(ms[1..]);
      if ms[0].role == SYSTEM { assert SystemOf(ms)[1..] == SystemOf(ms[1..]); }
    }
  }

  lemma {:induction false} SystemConcat(a: seq<Message>, b: seq<Message>)
    ensures SystemOf(a + b) == SystemOf(a) + SystemOf(b)
  {
    if a == [] {
      assert a + b == b;
    } else {
      assert (a + b)[1..] == a[1..] + b;
      SystemConcat(a[1..], b);
    }
  }
}
