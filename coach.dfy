/**
 * Lightweight lexical heuristics over chat turns: a negativity score, a
 * "you-statement" score, and the flags (dominance, negativity, you-statements)
 * computed over the turns of the last two minutes.
 */
module Coach {
  import opened Wrappers
  import opened Labels
  import opened Strings

  /** Hostile or absolutist words; each one present adds 1 to the negativity score. */
  const BadWords: seq<string> :=
    ["always", "never", "stupid", "hate", "annoying",
     "lazy", "useless", "ridiculous", "whatever", "shut up"]

  /** Absolute qualifiers; each one present adds 1 to the you-statement score. */
  const Absolutes: seq<string> := ["always", "never", "every time", "again"]

  const DefaultWindowSec: real := 120.0
  /** Only the texts of this many most recent turns are scored. */
  const ScoredTurns: nat := 10
  const DominanceThreshold: real := 0.75
  const HitThreshold: nat := 2

  /** One speech turn: who spoke, what was said, and when (seconds). */
  datatype Turn = Turn(speaker: Sender, text: string, ts: real)

  datatype Flag = Dominance | Negativity | YouStatements

  /** `text || ""`: a missing text reads as the empty string. */
  function OrEmpty(text: Option<string>): (t: string) {
    text.GetOr("")
  }

  /** How many of the words in `ws` occur in `t` (each word at most once). */
  function CountContained(t: string, ws: seq<string>): (r: nat)
    ensures r <= |ws|
  {
    if ws == [] then 0
    else CountContained(t, ws[..|ws| - 1]) + (if Contains(t, ws[|ws| - 1]) then 1 else 0)
  }

  lemma {:induction false} CountContainedPositiveIff(t: string, ws: seq<string>)
    ensures CountContained(t, ws) > 0 <==> exists k | 0 <= k < |ws| :: Contains(t, ws[k])
  {
    if ws != [] {
      var init := ws[..|ws| - 1];
      CountContainedPositiveIff(t, init);
      if exists k | 0 <= k < |init| :: Contains(t, init[k]) {
        var k :| 0 <= k < |init| && Contains(t, init[k]);
        assert ws[k] == init[k];
      }
      if exists k | 0 <= k < |ws| :: Contains(t, ws[k]) {
        var k :| 0 <= k < |ws| && Contains(t, ws[k]);
        if k < |init| {
          assert init[k] == ws[k];
        }
      }
    }
  }

  /** negativityScore: the number of listed words found anywhere in the lower-cased text. */
  function NegativityScore(text: Option<string>): (r: nat)
    ensures r <= |BadWords|
  {
    CountContained(Lower(OrEmpty(text)), BadWords)
  }

  /** A null, undefined or empty text scores 0. */
  lemma NegativityOfNothing()
    ensures NegativityScore(None) == 0
    ensures NegativityScore(Some("")) == 0
  {
    assert Lower("") == "";
    forall k | 0 <= k < |BadWords| ensures !Contains("", BadWords[k]) {
      ContainsNonEmptyInEmpty(BadWords[k]);
    }
    CountContainedPositiveIff("", BadWords);
  }

  /** The score ignores letter case. */
  lemma NegativityIgnoresCase(t: string)
    ensures NegativityScore(Some(Upper(t))) == NegativityScore(Some(t))
    ensures NegativityScore(Some(Lower(t))) == NegativityScore(Some(t))
  {
    LowerOfUpper(t);
    LowerIdempotent(t);
  }

  /**
   * Matching is by substring: a listed word anywhere in the lower-cased text,
   * even inside a longer word ("hateful"), makes the score positive.
   */
  lemma NegativityCountsInfix(t: string, p: string, q: string, k: nat)
    requires k < |BadWords| && Lower(t) == p + BadWords[k] + q
    ensures NegativityScore(Some(t)) >= 1
  {
    ContainsInfix(p, BadWords[k], q);
    CountContainedPositiveIff(Lower(t), BadWords);
  }

  /** The score is positive exactly when some listed word occurs in the lower-cased text. */
  lemma NegativityPositiveIff(text: Option<string>)
    ensures NegativityScore(text) > 0 <==>
            exists k | 0 <= k < |BadWords| :: Contains(Lower(OrEmpty(text)), BadWords[k])
  {
    CountContainedPositiveIff(Lower(OrEmpty(text)), BadWords);
  }

  // ---------------------------------------------------------------------------
  // youStatementScore

  /** The characters of the regular-expression class `\w`. */
  predicate IsWordChar(c: char) {
    ('a' <= c <= 'z') || ('A' <= c <= 'Z') || ('0' <= c <= '9') || c == '_'
  }

  /** `/\byou\b/` matches at index `i`: "you" with no word character on either side. */
  predicate YouAt(t: string, i: nat) {
    i + 3 <= |t| && t[i..i + 3] == "you" &&
    (i == 0 || !IsWordChar(t[i - 1])) &&
    (i + 3 == |t| || !IsWordChar(t[i + 3]))
  }

  /** Matches of `/\byou\b/` at index `i` or later. */
  function YouCountFrom(t: string, i: nat): (count: nat)
    decreases |t| - i
  {
    if i >= |t| then 0
    else (if YouAt(t, i) then 1 else 0) + YouCountFrom(t, i + 1)
  }

  /**
   * `t.split(/\byou\b/).length - 1`: the number of whole-word matches of "you"
   * ("you" cannot overlap itself, so every match position counts).
   */
  function YouCount(t: string): (count: nat) {
    YouCountFrom(t, 0)
  }

  lemma {:induction false} YouCountFromPositiveIff(t: string, i: nat)
    ensures YouCountFrom(t, i) > 0 <==> exists j: nat :: i <= j && YouAt(t, j)
    decreases |t| - i
  {
    if i >= |t| {
      forall j: nat | i <= j
        ensures !YouAt(t, j)
      {
      }
    } else {
      YouCountFromPositiveIff(t, i + 1);
      if exists j: nat :: i <= j && YouAt(t, j) {
        var j: nat :| i <= j && YouAt(t, j);
        assert j == i || (i + 1 <= j && YouAt(t, j));
      }
    }
  }

  /** The count is positive exactly when "you" occurs as a whole word. */
  lemma YouCountPositiveIff(t: string)
    ensures YouCount(t) > 0 <==> exists j: nat :: YouAt(t, j)
  {
    YouCountFromPositiveIff(t, 0);
  }

  /** A "you" set off by non-word characters (or the ends of the text) is counted. */
  lemma YouAsWordCounts(p: string, q: string)
    requires p == [] || !IsWordChar(p[|p| - 1])
    requires q == [] || !IsWordChar(q[0])
    ensures YouCount(p + "you" + q) >= 1
  {
    var t := p + "you" + q;
    assert t[|p|..|p| + 3] == "you";
    if |p| > 0 {
      assert t[|p| - 1] == p[|p| - 1];
    }
    if |q| > 0 {
      assert t[|p| + 3] == q[0];
    }
    assert YouAt(t, |p|);
    YouCountPositiveIff(t);
  }

  /** Without "you" anywhere in the text, there is no match. */
  lemma YouCountWithoutYou(t: string)
    requires !Contains(t, "you")
    ensures YouCount(t) == 0
  {
    YouCountPositiveIff(t);
    ContainsIff(t, "you");
    if exists j: nat :: YouAt(t, j) {
      var j: nat :| YouAt(t, j);
      assert OccursAt(t, "you", j);
    }
  }

  /** The value `youStatementScore(text)` computes. */
  function YouScore(text: Option<string>): (score: nat) {
    var t := Lower(OrEmpty(text));
    YouCount(t) + CountContained(t, Absolutes)
  }

  /**
   * youStatementScore: whole-word "you" matches in the lower-cased text, plus 1
   * for each absolute qualifier present (a bonus between 0 and 4).
   */
  method YouStatementScore(text: Option<string>) returns (score: nat)
    ensures score == YouScore(text)
    ensures YouCount(Lower(OrEmpty(text))) <= score <= YouCount(Lower(OrEmpty(text))) + |Absolutes|
  {
    var t := Lower(OrEmpty(text));
    score := YouCount(t);
    for k := 0 to |Absolutes|
      invariant score == YouCount(t) + CountContained(t, Absolutes[..k])
    {
      assert Absolutes[..k + 1][..k] == Absolutes[..k];
      if Contains(t, Absolutes[k]) {
        score := score + 1;
      }
    }
    assert Absolutes[..|Absolutes|] == Absolutes;
  }

  // ---------------------------------------------------------------------------
  // computeFlags

  /** The turns no older than `windowSec` at time `now`, in their original order. */
  function Recent(turns: seq<Turn>, now: real, windowSec: real): (r: seq<Turn>)
    ensures |r| <= |turns|
    ensures forall t :: t in r <==> t in turns && now - t.ts <= windowSec
  {
    if turns == [] then []
    else (if now - turns[0].ts <= windowSec then [turns[0]] else []) + Recent(turns[1..], now, windowSec)
  }

  /** The recent turns of a concatenation are those of each part, in order and with repeats. */
  lemma {:induction false} RecentAppend(a: seq<Turn>, b: seq<Turn>, now: real, windowSec: real)
    ensures Recent(a + b, now, windowSec) == Recent(a, now, windowSec) + Recent(b, now, windowSec)
  {
    if a == [] {
      assert a + b == b;
    } else {
      assert (a + b)[0] == a[0] && (a + b)[1..] == a[1..] + b;
      RecentAppend(a[1..], b, now, windowSec);
    }
  }

  /** Number of turns spoken by `sp`; turns from any other sender are not counted. */
  function CountBy(turns: seq<Turn>, sp: Speaker): (r: nat)
    ensures r <= |turns|
  {
    if turns == [] then 0
    else (if turns[0].speaker == Human(sp) then 1 else 0) + CountBy(turns[1..], sp)
  }

  lemma {:induction false} CountByZero(turns: seq<Turn>, sp: Speaker)
    requires forall t | t in turns :: t.speaker != Human(sp)
    ensures CountBy(turns, sp) == 0
  {
    if turns != [] {
      assert turns[0] in turns;
      CountByZero(turns[1..], sp);
    }
  }

  /**
   * The last `n` elements of `s` (all of `s` when it is shorter). This is
   * `s.slice(-n)` for n > 0, the only case used (10 and 20); `slice(-0)` would
   * return all of `s`.
   */
  function TakeLast<T>(s: seq<T>, n: nat): (r: seq<T>)
    ensures |r| == (if |s| < n then |s| else n)
    ensures r == s[|s| - |r|..]
  {
    if |s| <= n then s else s[|s| - n..]
  }

  function Texts(turns: seq<Turn>): (r: seq<string>)
    ensures |r| == |turns|
    ensures forall i | 0 <= i < |turns| :: r[i] == turns[i].text
  {
    if turns == [] then [] else [turns[0].text] + Texts(turns[1..])
  }

  /** The texts of the last ten recent turns, the only texts the lexical flags read. */
  function LastTexts(recent: seq<Turn>): (texts: seq<string>) {
    Texts(TakeLast(recent, ScoredTurns))
  }

  function NegHits(texts: seq<string>): (hits: nat) {
    if texts == [] then 0 else NegativityScore(Some(texts[0])) + NegHits(texts[1..])
  }

  function YouHits(texts: seq<string>): (hits: nat) {
    if texts == [] then 0 else YouScore(Some(texts[0])) + YouHits(texts[1..])
  }

  function Max(a: nat, b: nat): (m: nat) {
    if a < b then b else a
  }

  /** `max(s1, s2) / max(1, s1 + s2)`. */
  function DominanceRatio(s1: nat, s2: nat): (ratio: real) {
    (Max(s1, s2) as real) / (Max(1, s1 + s2) as real)
  }

  lemma RatioIff(m: nat, t: nat)
    requires t > 0
    ensures (m as real) / (t as real) >= DominanceThreshold <==> 4 * m >= 3 * t
  {
    var mr, tr := m as real, t as real;
    var q := mr / tr;
    assert mr == q * tr;
    if q >= DominanceThreshold {
      assert q * tr >= DominanceThreshold * tr;
    } else {
      assert q * tr < DominanceThreshold * tr;
    }
    assert (4 * m) as real == 4.0 * mr;
    assert (3 * t) as real == 3.0 * tr;
  }

  /** The dominance test `ratio >= 0.75` in integer form. */
  lemma DominanceIff(s1: nat, s2: nat)
    ensures DominanceRatio(s1, s2) >= DominanceThreshold <==> 4 * Max(s1, s2) >= 3 * Max(1, s1 + s2)
  {
    RatioIff(Max(s1, s2), Max(1, s1 + s2));
  }

  /** Canonical rank of a flag: the order in which computeFlags pushes them. */
  function Rank(f: Flag): (rank: nat) {
    match f
    case Dominance => 0
    case Negativity => 1
    case YouStatements => 2
  }

  /** Strictly increasing ranks: an ordered subsequence of [dominance, negativity, you_statements]. */
  predicate InCanonicalOrder(fs: seq<Flag>) {
    forall i, j | 0 <= i < j < |fs| :: Rank(fs[i]) < Rank(fs[j])
  }

  /** An ordered flag list has no duplicates and at most three entries. */
  lemma CanonicalOrderBounds(fs: seq<Flag>)
    requires InCanonicalOrder(fs)
    ensures |fs| <= 3
    ensures forall i, j | 0 <= i < j < |fs| :: fs[i] != fs[j]
  {
    if |fs| > 0 {
      RankAtLeastIndex(fs, |fs| - 1);
    }
  }

  lemma {:induction false} RankAtLeastIndex(fs: seq<Flag>, k: nat)
    requires InCanonicalOrder(fs) && k < |fs|
    ensures Rank(fs[k]) >= k
  {
    if k > 0 {
      RankAtLeastIndex(fs, k - 1);
    }
  }

  function FlagList(dominance: bool, negativity: bool, you: bool): (fs: seq<Flag>)
    ensures InCanonicalOrder(fs)
    ensures Dominance in fs <==> dominance
    ensures Negativity in fs <==> negativity
    ensures YouStatements in fs <==> you
  {
    (if dominance then [Dominance] else []) +
    (if negativity then [Negativity] else []) +
    (if you then [YouStatements] else [])
  }

  /** The flags computeFlags derives from a non-empty list of recent turns. */
  function FlagsOfRecent(r: seq<Turn>): (flags: seq<Flag>)
    ensures InCanonicalOrder(flags) && |flags| <= 3
    ensures Dominance in flags <==>
              4 * Max(CountBy(r, S1), CountBy(r, S2)) >= 3 * Max(1, CountBy(r, S1) + CountBy(r, S2))
    ensures Negativity in flags <==> NegHits(LastTexts(r)) >= HitThreshold
    ensures YouStatements in flags <==> YouHits(LastTexts(r)) >= HitThreshold
  {
    var s1, s2 := CountBy(r, S1), CountBy(r, S2);
    var texts := LastTexts(r);
    var dominance := DominanceRatio(s1, s2) >= DominanceThreshold;
    DominanceIff(s1, s2);
    assert dominance <==> 4 * Max(s1, s2) >= 3 * Max(1, s1 + s2);
    var fs := FlagList(dominance, NegHits(texts) >= HitThreshold, YouHits(texts) >= HitThreshold);
    CanonicalOrderBounds(fs);
    fs
  }

  /**
   * The flags computeFlags returns: none without a recent turn; otherwise
   * dominance when one speaker has at least 3/4 of the recent s1/s2 turns,
   * negativity and you-statements when the scores over the last ten recent
   * texts reach 2.
   */
  function Flags(turns: seq<Turn>, now: real, windowSec: real): (flags: seq<Flag>)
    ensures InCanonicalOrder(flags) && |flags| <= 3
    ensures Recent(turns, now, windowSec) == [] ==> flags == []
    ensures Recent(turns, now, windowSec) != [] ==> flags == FlagsOfRecent(Recent(turns, now, windowSec))
  {
    var recent := Recent(turns, now, windowSec);
    if recent == [] then [] else FlagsOfRecent(recent)
  }

  /** computeFlags: filters, counts and scores, then pushes the flags one by one. */
  method ComputeFlags(turns: seq<Turn>, now: real, windowSec: real) returns (flags: seq<Flag>)
    ensures flags == Flags(turns, now, windowSec)
  {
    var recent := Recent(turns, now, windowSec);
    if |recent| == 0 {
      return [];
    }
    var s1Count := CountBy(recent, S1);
    var s2Count := CountBy(recent, S2);
    var lastTexts := LastTexts(recent);
    var negHits := NegHits(lastTexts);
    var youHits := YouHits(lastTexts);
    flags := [];
    if DominanceRatio(s1Count, s2Count) >= DominanceThreshold {
      flags := flags + [Dominance];
    }
    if negHits >= HitThreshold {
      flags := flags + [Negativity];
    }
    if youHits >= HitThreshold {
      flags := flags + [YouStatements];
    }
    assert flags == FlagList(DominanceRatio(s1Count, s2Count) >= DominanceThreshold,
                             negHits >= HitThreshold, youHits >= HitThreshold);
  }

  /** Without any recent s1 or s2 turn there is never a dominance flag. */
  lemma NoSpeakersNoDominance(turns: seq<Turn>, now: real, windowSec: real)
    requires forall t | t in turns && now - t.ts <= windowSec :: t.speaker == Bot
    ensures Dominance !in Flags(turns, now, windowSec)
  {
    var r := Recent(turns, now, windowSec);
    CountByZero(r, S1);
    CountByZero(r, S2);
  }

  /** The lexical flags depend only on the texts of the last ten recent turns. */
  lemma LexicalFlagsReadLastTexts(turns: seq<Turn>, turns': seq<Turn>, now: real, now': real, windowSec: real)
    requires Recent(turns, now, windowSec) != [] && Recent(turns', now', windowSec) != []
    requires LastTexts(Recent(turns, now, windowSec)) == LastTexts(Recent(turns', now', windowSec))
    ensures Negativity in Flags(turns, now, windowSec) <==> Negativity in Flags(turns', now', windowSec)
    ensures YouStatements in Flags(turns, now, windowSec) <==> YouStatements in Flags(turns', now', windowSec)
  {
  }
}
