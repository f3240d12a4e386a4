/**
  Running statistics over the calls of a session (`crates/common/src/llm_stats.rs`).

  Counters are 64 bits wide and wrap around. `Valid` ties every field to the rounds since the
  last reset, and `TotalsAreExact` says for how many rounds the wrapped totals are the sums.
 */
module RunningStats {
  import opened Wrappers

  const TWO_32 := 0x1_0000_0000
  const TWO_64 := 0x1_0000_0000_0000_0000
  const TOLERANCE := 1024

  type u32 = x: int | 0 <= x < TWO_32

  datatype Usage = Usage(prompt: u32, completion: u32, total: Option<u32>, cacheRead: Option<u32>,
                         cacheWrite: Option<u32>, reasoning: Option<u32>)

  datatype Anomaly = Anomaly(previousPrompt: u32, cacheRead: u32, deviation: u32, tolerance: u32)

  // ---------- one call ----------

  function DetectCacheAnomaly(previousPrompt: Option<u32>, cacheRead: Option<u32>): (info: Option<Anomaly>)
    ensures info.Some? <==>
      && previousPrompt.Some? && cacheRead.Some? && previousPrompt.value != 0
      && (previousPrompt.value > cacheRead.value + 1024 || cacheRead.value > previousPrompt.value + 1024)
    ensures info.Some? ==>
      && previousPrompt == Some(info.value.previousPrompt) && cacheRead == Some(info.value.cacheRead)
      && info.value.tolerance == 1024 < info.value.deviation
      && (info.value.previousPrompt == info.value.cacheRead + info.value.deviation
          || info.value.cacheRead == info.value.previousPrompt + info.value.deviation)
  {
    if previousPrompt.None? || cacheRead.None? then None
    else
      var prev, curr := previousPrompt.value, cacheRead.value;
      if prev == 0 then None
      else
        var deviation := if prev > curr then prev - curr else curr - prev;
        if deviation <= TOLERANCE then None else Some(Anomaly(prev, curr, deviation, TOLERANCE))
  }

  function OrZero(n: Option<u32>): u32 {
    if n.Some? then n.value else 0
  }

  function PromptOf(u: Usage): nat { u.prompt }

  function CompletionOf(u: Usage): nat { u.completion }

  function CacheReadOf(u: Usage): nat { OrZero(u.cacheRead) }

  function CacheWriteOf(u: Usage): nat { OrZero(u.cacheWrite) }

  function ReasoningOf(u: Usage): nat { OrZero(u.reasoning) }

  function TotalOf(u: Usage): nat {
    if u.total.Some? then u.total.value else u.prompt + u.completion
  }

  // ---------- the rounds since the last reset ----------

  function Sum(rounds: seq<Usage>, f: Usage -> nat): nat {
    if rounds == [] then 0 else Sum(rounds[..|rounds| - 1], f) + f(rounds[|rounds| - 1])
  }

  function LastPrompt(rounds: seq<Usage>): Option<u32> {
    if rounds == [] then None else Some(rounds[|rounds| - 1].prompt)
  }

  function LastCompletion(rounds: seq<Usage>): Option<u32> {
    if rounds == [] then None else Some(rounds[|rounds| - 1].completion)
  }

  /** A cache count of zero means that no cache is used. */
  function Effective(cacheRead: Option<u32>): Option<u32> {
    if cacheRead == Some(0) then None else cacheRead
  }

  function LastCacheRead(rounds: seq<Usage>): Option<u32> {
    if rounds == [] then None else Effective(rounds[|rounds| - 1].cacheRead)
  }

  function HitRate(cacheRead: Option<u32>, prompt: Option<u32>): Option<real> {
    if Effective(cacheRead).Some? && prompt.Some? && prompt.value > 0
    then Some(Effective(cacheRead).value as real / prompt.value as real) else None
  }

  function LastHitRate(rounds: seq<Usage>): Option<real> {
    if rounds == [] then None else HitRate(rounds[|rounds| - 1].cacheRead, Some(rounds[|rounds| - 1].prompt))
  }

  /** The anomaly of the latest round that had one. */
  function LastAnomaly(rounds: seq<Usage>): Option<Anomaly> {
    if rounds == [] then None
    else
      var before, u := rounds[..|rounds| - 1], rounds[|rounds| - 1];
      var info := DetectCacheAnomaly(LastPrompt(before), u.cacheRead);
      if info.Some? then info else LastAnomaly(before)
  }

  lemma {:induction false} SumAtMost(rounds: seq<Usage>, f: Usage -> nat, most: nat)
    requires forall u :: f(u) <= most
    ensures Sum(rounds, f) <= |rounds| * most
  {
    if rounds != [] {
      SumAtMost(rounds[..|rounds| - 1], f, most);
      assert |rounds| * most == (|rounds| - 1) * most + most;
    }
  }

  /** Up to 2^31 rounds no counter overflows, whatever the rounds are. */
  lemma TotalsAreExact(rounds: seq<Usage>)
    requires |rounds| <= 0x8000_0000
    ensures Sum(rounds, TotalOf) < TWO_64
    ensures Sum(rounds, PromptOf) < TWO_64 && Sum(rounds, CompletionOf) < TWO_64
    ensures Sum(rounds, CacheReadOf) < TWO_64 && Sum(rounds, CacheWriteOf) < TWO_64
    ensures Sum(rounds, ReasoningOf) < TWO_64
  {
    var most := 2 * (TWO_32 - 1);
    SumAtMost(rounds, TotalOf, most);
    SumAtMost(rounds, PromptOf, most);
    SumAtMost(rounds, CompletionOf, most);
    SumAtMost(rounds, CacheReadOf, most);
    SumAtMost(rounds, CacheWriteOf, most);
    SumAtMost(rounds, ReasoningOf, most);
    assert |rounds| * most <= 0x8000_0000 * most;
  }

  /** One round more can overflow: 2^31 is the exact bound. */
  lemma OneMoreCanOverflow()
    ensures exists rounds: seq<Usage> :: |rounds| == 0x8000_0001 && Sum(rounds, TotalOf) >= TWO_64
  {
    var u := Usage(TWO_32 - 1, TWO_32 - 1, None, None, None, None);
    var rounds := Repeated(u, 0x8000_0001);
    SumRepeated(u, 0x8000_0001, TotalOf);
  }

  function Repeated(u: Usage, n: nat): (r: seq<Usage>)
    ensures |r| == n
  {
    if n == 0 then [] else Repeated(u, n - 1) + [u]
  }

  lemma {:induction false} SumRepeated(u: Usage, n: nat, f: Usage -> nat)
    ensures Sum(Repeated(u, n), f) == n * f(u)
  {
    if n > 0 {
      SumRepeated(u, n - 1, f);
      SumNext(Repeated(u, n - 1), u, f);
      hide Sum;
      OnceMore(n, f(u));
    }
  }

  lemma OnceMore(n: nat, v: nat)
    requires n > 0
    ensures (n - 1) * v + v == n * v
  {
  }

  lemma SumNext(rounds: seq<Usage>, u: Usage, f: Usage -> nat)
    ensures Sum(rounds + [u], f) == Sum(rounds, f) + f(u)
  {
    assert (rounds + [u])[..|rounds|] == rounds;
  }

  // ---------- the counters ----------

  function Add64(a: nat, b: nat): nat {
    (a + b) % TWO_64
  }

  function Wrapped(rounds: seq<Usage>, f: Usage -> nat): nat {
    Sum(rounds, f) % TWO_64
  }

  lemma WrappedNext(rounds: seq<Usage>, u: Usage, f: Usage -> nat)
    ensures Wrapped(rounds + [u], f) == Add64(Wrapped(rounds, f), f(u))
  {
    SumNext(rounds, u, f);
  }

  lemma OneMore(n: nat)
    ensures Add64(n % TWO_64, 1) == (n + 1) % TWO_64
  {
  }

  /** What a call adds to the counters, from the fields of its usage. */
  lemma AddsFields(usage: Usage)
    ensures forall a: nat, b: nat :: Add64(a, b) == (a + b) % 0x1_0000_0000_0000_0000
    ensures TotalOf(usage) == match usage.total case Some(n) => n case None => usage.prompt + usage.completion
    ensures OrZero(usage.cacheRead) == match usage.cacheRead case Some(n) => n case None => 0
    ensures OrZero(usage.cacheWrite) == match usage.cacheWrite case Some(n) => n case None => 0
    ensures OrZero(usage.reasoning) == match usage.reasoning case Some(n) => n case None => 0
    ensures match usage.cacheRead
            case None => Effective(usage.cacheRead) == None && HitRate(usage.cacheRead, Some(usage.prompt)) == None
            case Some(n) =>
              && Effective(usage.cacheRead) == (if n == 0 then None else Some(n))
              && HitRate(usage.cacheRead, Some(usage.prompt))
                 == if n == 0 || usage.prompt == 0 then None else Some(n as real / usage.prompt as real)
  {
  }

  class Stats {
    var totalPrompt: nat
    var totalCompletion: nat
    var total: nat
    var totalCacheRead: nat
    var totalCacheWrite: nat
    var totalReasoning: nat
    var requestCount: nat
    var lastPrompt: Option<u32>
    var lastCompletion: Option<u32>
    var lastCacheRead: Option<u32>
    var lastHitRate: Option<real>
    var lastAnomaly: Option<Anomaly>

    /** Every field says what the rounds since the last reset say. */
    ghost predicate Valid(rounds: seq<Usage>)
      reads this
    {
      && totalPrompt == Wrapped(rounds, PromptOf)
      && totalCompletion == Wrapped(rounds, CompletionOf)
      && total == Wrapped(rounds, TotalOf)
      && totalCacheRead == Wrapped(rounds, CacheReadOf)
      && totalCacheWrite == Wrapped(rounds, CacheWriteOf)
      && totalReasoning == Wrapped(rounds, ReasoningOf)
      && requestCount == |rounds| % TWO_64
      && lastPrompt == LastPrompt(rounds)
      && lastCompletion == LastCompletion(rounds)
      && lastCacheRead == LastCacheRead(rounds)
      && lastHitRate == LastHitRate(rounds)
      && lastAnomaly == LastAnomaly(rounds)
    }

    constructor ()
      ensures Valid([])
    {
      totalPrompt, totalCompletion, total, totalCacheRead, totalCacheWrite, totalReasoning := 0, 0, 0, 0, 0, 0;
      requestCount := 0;
      lastPrompt, lastCompletion, lastCacheRead, lastHitRate, lastAnomaly := None, None, None, None, None;
    }

    method DetectCacheAnomalyAndUpdate(cacheRead: Option<u32>, prompt: Option<u32>) returns (info: Option<Anomaly>)
      modifies this`lastCacheRead, this`lastHitRate, this`lastAnomaly
      ensures info == DetectCacheAnomaly(lastPrompt, cacheRead)
      ensures lastAnomaly == if info.Some? then info else old(lastAnomaly)
      ensures lastCacheRead == Effective(cacheRead) && lastHitRate == HitRate(cacheRead, prompt)
    {
      info := DetectCacheAnomaly(lastPrompt, cacheRead);
      lastCacheRead := if cacheRead.Some? && cacheRead.value != 0 then cacheRead else None;
      if lastCacheRead.Some? && prompt.Some? && prompt.value > 0 {
        lastHitRate := Some(lastCacheRead.value as real / prompt.value as real);
      } else {
        lastHitRate := None;
      }
      if info.Some? { lastAnomaly := info; }
    }

    method Accumulate(usage: Usage)
      modifies this
      ensures lastCacheRead == old(lastCacheRead) && lastHitRate == old(lastHitRate) && lastAnomaly == old(lastAnomaly)
      ensures lastPrompt == Some(usage.prompt) && lastCompletion == Some(usage.completion)
      ensures totalPrompt == Add64(old(totalPrompt), usage.prompt) && totalCompletion == Add64(old(totalCompletion), usage.completion)
      ensures total == Add64(old(total), TotalOf(usage)) && requestCount == Add64(old(requestCount), 1)
      ensures totalCacheRead == Add64(old(totalCacheRead), OrZero(usage.cacheRead))
      ensures totalCacheWrite == Add64(old(totalCacheWrite), OrZero(usage.cacheWrite))
      ensures totalReasoning == Add64(old(totalReasoning), OrZero(usage.reasoning))
    {
      totalPrompt := Add64(totalPrompt, usage.prompt);
      totalCompletion := Add64(totalCompletion, usage.completion);
      total := Add64(total, if usage.total.Some? then usage.total.value else usage.prompt + usage.completion);
      totalCacheRead := Add64(totalCacheRead, OrZero(usage.cacheRead));
      totalCacheWrite := Add64(totalCacheWrite, OrZero(usage.cacheWrite));
      totalReasoning := Add64(totalReasoning, OrZero(usage.reasoning));
      requestCount := Add64(requestCount, 1);
      lastPrompt, lastCompletion := Some(usage.prompt), Some(usage.completion);
    }

    /** Detection and then accumulation, the order callers must keep. */
    method Round(ghost rounds: seq<Usage>, usage: Usage) returns (info: Option<Anomaly>)
      requires Valid(rounds)
      modifies this
      ensures Valid(rounds + [usage])
      ensures info == DetectCacheAnomaly(old(lastPrompt), usage.cacheRead)
      ensures lastPrompt == Some(usage.prompt) && lastCompletion == Some(usage.completion)
      ensures totalPrompt == (old(totalPrompt) + usage.prompt) % 0x1_0000_0000_0000_0000
      ensures totalCompletion == (old(totalCompletion) + usage.completion) % 0x1_0000_0000_0000_0000
      ensures var n := match usage.total case Some(n) => n case None => usage.prompt + usage.completion;
              total == (old(total) + n) % 0x1_0000_0000_0000_0000
      ensures var n := match usage.cacheRead case Some(n) => n case None => 0;
              totalCacheRead == (old(totalCacheRead) + n) % 0x1_0000_0000_0000_0000
      ensures var n := match usage.cacheWrite case Some(n) => n case None => 0;
              totalCacheWrite == (old(totalCacheWrite) + n) % 0x1_0000_0000_0000_0000
      ensures var n := match usage.reasoning case Some(n) => n case None => 0;
              totalReasoning == (old(totalReasoning) + n) % 0x1_0000_0000_0000_0000
      ensures requestCount == (old(requestCount) + 1) % 0x1_0000_0000_0000_0000
      ensures match usage.cacheRead
              case None => lastCacheRead == None && lastHitRate == None
              case Some(n) =>
                && lastCacheRead == (if n == 0 then None else Some(n))
                && lastHitRate == if n == 0 || usage.prompt == 0 then None else Some(n as real / usage.prompt as real)
      ensures lastAnomaly == if info.Some? then info else old(lastAnomaly)
    {
      AddsFields(usage);
      hide Wrapped, Add64, DetectCacheAnomaly, Effective, HitRate;
      info := DetectCacheAnomalyAndUpdate(usage.cacheRead, Some(usage.prompt));
      Accumulate(usage);
      assert (rounds + [usage])[..|rounds|] == rounds;
      OneMore(|rounds|);
      WrappedNext(rounds, usage, PromptOf);
      WrappedNext(rounds, usage, CompletionOf);
      WrappedNext(rounds, usage, TotalOf);
      WrappedNext(rounds, usage, CacheReadOf);
      WrappedNext(rounds, usage, CacheWriteOf);
      WrappedNext(rounds, usage, ReasoningOf);
    }

    method Reset()
      modifies this
      ensures Valid([])
      ensures totalPrompt == totalCompletion == total == totalCacheRead == totalCacheWrite == totalReasoning == requestCount == 0
      ensures lastPrompt == lastCompletion == lastCacheRead == None && lastHitRate == None && lastAnomaly == None
    {
      totalPrompt, totalCompletion, total, totalCacheRead, totalCacheWrite, totalReasoning := 0, 0, 0, 0, 0, 0;
      requestCount := 0;
      lastPrompt, lastCompletion, lastCacheRead, lastHitRate, lastAnomaly := None, None, None, None, None;
    }
  }
}
