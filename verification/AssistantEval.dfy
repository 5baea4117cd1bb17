/** `run_eval` of backend/app/eval/assistant_eval.py: items run in order under a money budget and
    a waiting budget, with retries when the provider limits the rate.  Exact arithmetic. */
module AssistantEval {
  import opened Wrappers
  import opened Sums

  datatype Tokens = Tokens(prompt: nat, cached: nat, completion: nat)

  datatype Prices = Prices(input: real, cached: real, output: real)

  datatype ErrorClass = NoError | RateLimitError | QuotaError | OtherError

  // What `run_item` reports about one attempt, as far as the loop reads it.
  datatype Attempt = Attempt(degraded: bool, error: ErrorClass, tokens: Tokens)

  datatype ItemResult = ItemResult(index: nat, last: Attempt, tokens: Tokens, cost: real, retries: nat)

  datatype StopReason = BudgetReached | RateLimitPersists

  // ----- costs

  function Min(a: nat, b: nat): nat { if a <= b then a else b }

  // `cost_usd`
  function CostUsd(t: Tokens, prices: Prices): real {
    var cached := Min(t.cached, t.prompt);
    ((t.prompt - cached) as real * prices.input + cached as real * prices.cached + t.completion as real * prices.output)
    / 1000000.0
  }

  function Plus(a: Tokens, b: Tokens): Tokens {
    Tokens(a.prompt + b.prompt, a.cached + b.cached, a.completion + b.completion)
  }

  function TotalTokens(attempts: seq<Attempt>): Tokens {
    if attempts == [] then Tokens(0, 0, 0)
    else Plus(TotalTokens(attempts[..|attempts| - 1]), attempts[|attempts| - 1].tokens)
  }

  // `rate_limited`
  predicate RateLimited(a: Attempt) { a.degraded && a.error.RateLimitError? }

  // `_with_all_attempts`: the verdict of the last attempt, the tokens and cost of all of them.
  function WithAllAttempts(index: nat, attempts: seq<Attempt>, prices: Prices): ItemResult
    requires attempts != []
  {
    var tokens := TotalTokens(attempts);
    ItemResult(index, attempts[|attempts| - 1], tokens, CostUsd(tokens, prices), |attempts| - 1)
  }

  // ----- the run

  // The arguments of a run, and what each attempt at each item would report.
  datatype Setup = Setup(items: nat, run: (nat, nat) -> Attempt, prices: Prices, roundBudget: real,
                         retries: int, wait: real, maxWait: real)

  function Attempts(s: Setup, index: nat, tries: nat): (a: seq<Attempt>)
    ensures |a| == tries
  {
    seq(tries, k requires 0 <= k < tries => s.run(index, k))
  }

  function Charge(s: Setup, index: nat, k: nat): real {
    CostUsd(s.run(index, k).tokens, s.prices)
  }

  datatype ItemRun = ItemRun(tries: nat, spent: real, waited: real, gaveUp: bool)

  // The inner loop, from attempt number `tries` on.
  function TryItem(s: Setup, index: nat, tries: nat, spent: real, waited: real): ItemRun
    decreases if s.retries > tries then s.retries - tries else 0
  {
    var spent' := spent + Charge(s, index, tries);
    if !RateLimited(s.run(index, tries)) || tries >= s.retries || spent' >= s.roundBudget
    then ItemRun(tries + 1, spent', waited, false)
    else if waited + s.wait > s.maxWait then ItemRun(tries + 1, spent', waited, true)
    else TryItem(s, index, tries + 1, spent', waited + s.wait)
  }

  // How many attempts each item got, and how the run ended.
  datatype EvalRun = EvalRun(tries: seq<nat>, spent: real, waited: real, skipped: nat, stopped: Option<StopReason>)

  // The outer loop, from item `index` on.
  function RunFrom(s: Setup, index: nat, spent: real, waited: real): EvalRun
    requires index <= s.items
    decreases s.items - index
  {
    if index == s.items then EvalRun([], spent, waited, 0, None)
    else if spent >= s.roundBudget then EvalRun([], spent, waited, s.items - index, Some(BudgetReached))
    else
      var item := TryItem(s, index, 0, spent, waited);
      if item.gaveUp then EvalRun([item.tries], item.spent, item.waited, s.items - index - 1, Some(RateLimitPersists))
      else
        var rest := RunFrom(s, index + 1, item.spent, item.waited);
        rest.(tries := [item.tries] + rest.tries)
  }

  function Results(s: Setup, index: nat, tries: seq<nat>): (r: seq<ItemResult>)
    requires forall k :: 0 <= k < |tries| ==> tries[k] > 0
    ensures |r| == |tries|
  {
    seq(|tries|, k requires 0 <= k < |tries| =>
      WithAllAttempts(index + k, Attempts(s, index + k, tries[k]), s.prices))
  }

  // `run_eval`; `spent` and `waited` are the loop's own counters.
  method RunEval(s: Setup) returns (results: seq<ItemResult>, skipped: nat, stopped: Option<StopReason>,
                                    spent: real, waited: real)
    ensures var run := RunFrom(s, 0, 0.0, 0.0);
      && spent == run.spent && waited == run.waited && skipped == run.skipped && stopped == run.stopped
      && (forall k :: 0 <= k < |run.tries| ==> run.tries[k] > 0)
      && results == Results(s, 0, run.tries)
  {
    hide TryItem, WithAllAttempts, Attempts, Results, CostUsd, RateLimited, TotalTokens;
    ghost var whole := RunFrom(s, 0, 0.0, 0.0);
    ghost var tries: seq<nat> := [];
    results, spent, waited := [], 0.0, 0.0;
    NoResults(s);
    for index := 0 to s.items
      invariant |tries| == index && forall k :: 0 <= k < |tries| ==> tries[k] > 0
      invariant results == Results(s, 0, tries)
      invariant whole == Continued(tries, RunFrom(s, index, spent, waited))
    {
      if spent >= s.roundBudget {
        assert tries + [] == tries;
        return results, s.items - index, Some(BudgetReached), spent, waited;
      }
      var attempts, gaveUp;
      ghost var rest := RunFrom(s, index, spent, waited);
      attempts, spent, waited, gaveUp := RunItem(s, index, spent, waited);
      OneMoreResult(s, tries, |attempts|);
      results := results + [WithAllAttempts(index, attempts, s.prices)];
      if gaveUp {
        return results, s.items - index - 1, Some(RateLimitPersists), spent, waited;
      }
      ContinuedTwice(tries, |attempts|, RunFrom(s, index + 1, spent, waited));
      tries := tries + [|attempts|];
    }
    assert tries + [] == tries;
    return results, 0, None, spent, waited;
  }

  // A run that goes on after the items already counted in `tries`.
  ghost function Continued(tries: seq<nat>, rest: EvalRun): EvalRun {
    rest.(tries := tries + rest.tries)
  }

  lemma ContinuedTwice(tries: seq<nat>, more: nat, rest: EvalRun)
    ensures Continued(tries, rest.(tries := [more] + rest.tries)) == Continued(tries + [more], rest)
  {
    assert tries + ([more] + rest.tries) == (tries + [more]) + rest.tries;
  }

  lemma NoResults(s: Setup)
    ensures Results(s, 0, []) == []
  {
  }

  lemma OneMoreResult(s: Setup, tries: seq<nat>, more: nat)
    requires more > 0 && forall k :: 0 <= k < |tries| ==> tries[k] > 0
    ensures Results(s, 0, tries + [more])
         == Results(s, 0, tries) + [WithAllAttempts(|tries|, Attempts(s, |tries|, more), s.prices)]
  {
  }

  // The inner loop.
  method RunItem(s: Setup, index: nat, spent0: real, waited0: real)
    returns (attempts: seq<Attempt>, spent: real, waited: real, gaveUp: bool)
    ensures var item := TryItem(s, index, 0, spent0, waited0);
      item == ItemRun(|attempts|, spent, waited, gaveUp) && attempts == Attempts(s, index, item.tries) && |attempts| > 0
  {
    attempts, spent, waited := [], spent0, waited0;
    while true
      invariant attempts == Attempts(s, index, |attempts|)
      invariant TryItem(s, index, |attempts|, spent, waited) == TryItem(s, index, 0, spent0, waited0)
      decreases if s.retries > |attempts| then s.retries - |attempts| else 0
    {
      ghost var k := |attempts|;
      var result := s.run(index, |attempts|);
      attempts := attempts + [result];
      assert attempts == Attempts(s, index, k + 1);
      spent := spent + CostUsd(result.tokens, s.prices);
      var retries := |attempts| - 1;
      if !RateLimited(result) || retries >= s.retries || spent >= s.roundBudget {
        return attempts, spent, waited, false;
      }
      if waited + s.wait > s.maxWait { return attempts, spent, waited, true; }
      waited := waited + s.wait;
    }
  }

  // ----- safety on every exit

  lemma {:induction false} TriesBounded(s: Setup, index: nat, tries: nat, spent: real, waited: real)
    requires tries <= s.retries || tries == 0
    ensures tries < TryItem(s, index, tries, spent, waited).tries
    ensures TryItem(s, index, tries, spent, waited).tries <= (if s.retries > 0 then s.retries else 0) + 1
    decreases if s.retries > tries then s.retries - tries else 0
  {
    var spent' := spent + Charge(s, index, tries);
    if RateLimited(s.run(index, tries)) && tries < s.retries && spent' < s.roundBudget && waited + s.wait <= s.maxWait {
      TriesBounded(s, index, tries + 1, spent', waited + s.wait);
    }
  }

  /** Results and skipped items add up to the items; every item that ran was tried at least once
      and at most `rate_limit_retries` times more; the run is complete unless it says why not. */
  lemma {:induction false} NothingLost(s: Setup, index: nat, spent: real, waited: real)
    requires index <= s.items
    ensures var r := RunFrom(s, index, spent, waited);
      && |r.tries| + r.skipped == s.items - index
      && (forall k :: 0 <= k < |r.tries| ==> 0 < r.tries[k] <= (if s.retries > 0 then s.retries else 0) + 1)
      && (r.stopped.None? ==> r.skipped == 0)
    decreases s.items - index
  {
    if index < s.items && spent < s.roundBudget {
      var item := TryItem(s, index, 0, spent, waited);
      TriesBounded(s, index, 0, spent, waited);
      if !item.gaveUp { NothingLost(s, index + 1, item.spent, item.waited); }
    }
  }

  lemma {:induction false} ItemWaits(s: Setup, index: nat, tries: nat, spent: real, waited: real)
    ensures var r := TryItem(s, index, tries, spent, waited); r.waited == waited || r.waited <= s.maxWait
    decreases if s.retries > tries then s.retries - tries else 0
  {
    var spent' := spent + Charge(s, index, tries);
    if RateLimited(s.run(index, tries)) && tries < s.retries && spent' < s.roundBudget && waited + s.wait <= s.maxWait {
      ItemWaits(s, index, tries + 1, spent', waited + s.wait);
    }
  }

  /** The waiting that rate limits cost never exceeds its cap. */
  lemma {:induction false} WaitCapped(s: Setup, index: nat, spent: real, waited: real)
    requires index <= s.items
    ensures var r := RunFrom(s, index, spent, waited); r.waited == waited || r.waited <= s.maxWait
    decreases s.items - index
  {
    if index < s.items && spent < s.roundBudget {
      var item := TryItem(s, index, 0, spent, waited);
      ItemWaits(s, index, 0, spent, waited);
      if !item.gaveUp { WaitCapped(s, index + 1, item.spent, item.waited); }
    }
  }

  // ----- the budget

  // What attempts number from..to of an item cost.
  function Charges(s: Setup, index: nat, from: nat, to: nat): (c: seq<real>)
    requires from <= to
    ensures |c| == to - from
  {
    seq(to - from, k requires 0 <= k < to - from => Charge(s, index, from + k))
  }

  // What every attempt of the run cost, in order.
  function AllCharges(s: Setup, index: nat, tries: seq<nat>): seq<real>
    decreases |tries|
  {
    if tries == [] then [] else Charges(s, index, 0, tries[0]) + AllCharges(s, index + 1, tries[1..])
  }

  // Starting from `spent`, every one of the charges is made while below the budget.
  ghost predicate BelowBudget(s: Setup, spent: real, charges: seq<real>) {
    forall k :: 0 <= k < |charges| ==> spent + Sum(charges[..k]) < s.roundBudget
  }

  lemma BelowBudgetConcat(s: Setup, spent: real, x: seq<real>, y: seq<real>)
    requires BelowBudget(s, spent, x) && BelowBudget(s, spent + Sum(x), y)
    ensures BelowBudget(s, spent, x + y)
  {
    forall k | 0 <= k < |x + y| ensures spent + Sum((x + y)[..k]) < s.roundBudget {
      if k < |x| {
        assert (x + y)[..k] == x[..k];
      } else {
        assert (x + y)[..k] == x + y[..k - |x|];
        SumConcat(x, y[..k - |x|]);
      }
    }
  }

  lemma FirstCharge(s: Setup, spent: real, charge: real, rest: seq<real>)
    requires spent < s.roundBudget && BelowBudget(s, spent + charge, rest)
    ensures BelowBudget(s, spent, [charge] + rest) && Sum([charge] + rest) == charge + Sum(rest)
  {
    assert [charge][..0] == [];
    BelowBudgetConcat(s, spent, [charge], rest);
    SumConcat([charge], rest);
  }

  lemma ChargesFrom(s: Setup, index: nat, from: nat, to: nat)
    requires from < to
    ensures Charges(s, index, from, to) == [Charge(s, index, from)] + Charges(s, index, from + 1, to)
  {
    hide Charge;
    var all, rest := Charges(s, index, from, to), Charges(s, index, from + 1, to);
    forall k | 0 < k < to - from ensures all[k] == rest[k - 1] {
      assert from + k == from + 1 + (k - 1);
    }
  }

  lemma {:induction false} ItemBelowBudget(s: Setup, index: nat, tries: nat, spent: real, waited: real)
    requires spent < s.roundBudget && (tries <= s.retries || tries == 0)
    ensures var r := TryItem(s, index, tries, spent, waited);
      && tries < r.tries
      && BelowBudget(s, spent, Charges(s, index, tries, r.tries))
      && r.spent == spent + Sum(Charges(s, index, tries, r.tries))
    decreases if s.retries > tries then s.retries - tries else 0
  {
    hide Charge, RateLimited, BelowBudget, Charges, Sum;
    var charge := Charge(s, index, tries);
    var r := TryItem(s, index, tries, spent, waited);
    TriesBounded(s, index, tries, spent, waited);
    ChargesFrom(s, index, tries, r.tries);
    if RateLimited(s.run(index, tries)) && tries < s.retries && spent + charge < s.roundBudget
      && waited + s.wait <= s.maxWait {
      ItemBelowBudget(s, index, tries + 1, spent + charge, waited + s.wait);
    } else {
      NoCharges(s, index, tries + 1, spent + charge);
    }
    FirstCharge(s, spent, charge, Charges(s, index, tries + 1, r.tries));
  }

  lemma NoCharges(s: Setup, index: nat, from: nat, spent: real)
    ensures Sum([]) == 0.0 && Charges(s, index, from, from) == [] && BelowBudget(s, spent, [])
  {
  }

  /** `spent` is exactly what the attempts cost, and no attempt starts once the budget is reached:
      the overshoot is less than one attempt. */
  lemma {:induction false} BudgetRespected(s: Setup, index: nat, spent: real, waited: real)
    requires index <= s.items
    ensures var r := RunFrom(s, index, spent, waited);
      && BelowBudget(s, spent, AllCharges(s, index, r.tries))
      && r.spent == spent + Sum(AllCharges(s, index, r.tries))
    decreases s.items - index
  {
    if index < s.items && spent < s.roundBudget {
      var item := TryItem(s, index, 0, spent, waited);
      var here := Charges(s, index, 0, item.tries);
      ItemBelowBudget(s, index, 0, spent, waited);
      if item.gaveUp {
        assert [item.tries][1..] == [] && AllCharges(s, index + 1, []) == [];
        assert AllCharges(s, index, [item.tries]) == here + [] == here;
      } else {
        BudgetRespected(s, index + 1, item.spent, item.waited);
        var rest := RunFrom(s, index + 1, item.spent, item.waited);
        assert ([item.tries] + rest.tries)[1..] == rest.tries;
        BelowBudgetConcat(s, spent, here, AllCharges(s, index + 1, rest.tries));
        SumConcat(here, AllCharges(s, index + 1, rest.tries));
      }
    }
  }

  lemma {:induction false} LastCharge(s: Setup, index: nat, tries: seq<nat>)
    requires tries != [] && forall k :: 0 <= k < |tries| ==> tries[k] > 0
    ensures var charges, n := AllCharges(s, index, tries), |tries| - 1;
      charges != [] && charges[|charges| - 1] == Charge(s, index + n, tries[n] - 1)
    decreases |tries|
  {
    hide Charge;
    if |tries| > 1 {
      LastCharge(s, index + 1, tries[1..]);
    } else {
      assert AllCharges(s, index, tries) == Charges(s, index, 0, tries[0]) + [];
    }
  }

  /** A run that starts an attempt at all exceeds its budget by less than its very last attempt. */
  lemma OvershootBelowOneAttempt(s: Setup)
    requires RunFrom(s, 0, 0.0, 0.0).tries != []
    ensures var r := RunFrom(s, 0, 0.0, 0.0); var n := |r.tries| - 1;
      r.tries[n] > 0 && r.spent < s.roundBudget + Charge(s, n, r.tries[n] - 1)
  {
    hide Charge, TryItem, RunFrom, AllCharges;
    var r := RunFrom(s, 0, 0.0, 0.0);
    NothingLost(s, 0, 0.0, 0.0);
    BudgetRespected(s, 0, 0.0, 0.0);
    LastCharge(s, 0, r.tries);
    var charges := AllCharges(s, 0, r.tries);
    assert 0.0 + Sum(charges[..|charges| - 1]) < s.roundBudget;
  }

  /** An item is retried only after a rate limit, and left rate-limited only when its retries, the
      money or the waiting time ran out. */
  lemma {:induction false} RetriesAreJustified(s: Setup, index: nat, tries: nat, spent: real, waited: real)
    ensures var r := TryItem(s, index, tries, spent, waited);
      && r.tries > tries
      && (forall k :: tries <= k < r.tries - 1 ==> RateLimited(s.run(index, k)))
      && (RateLimited(s.run(index, r.tries - 1)) ==>
            r.tries > s.retries || r.spent >= s.roundBudget || r.waited + s.wait > s.maxWait)
      && (r.gaveUp ==> RateLimited(s.run(index, r.tries - 1)))
    decreases if s.retries > tries then s.retries - tries else 0
  {
    var spent' := spent + Charge(s, index, tries);
    if RateLimited(s.run(index, tries)) && tries < s.retries && spent' < s.roundBudget && waited + s.wait <= s.maxWait {
      RetriesAreJustified(s, index, tries + 1, spent', waited + s.wait);
    }
  }

  // ----- when a run stops

  // How often the items were retried.
  ghost function Retried(tries: seq<nat>): int {
    if tries == [] then 0 else tries[0] - 1 + Retried(tries[1..])
  }

  // The time that n retries wait.
  ghost function WaitFor(s: Setup, n: int): real {
    n as real * s.wait
  }

  lemma MoreWaiting(s: Setup, n: int, k: int)
    ensures WaitFor(s, n + k) == WaitFor(s, n) + WaitFor(s, k)
    ensures WaitFor(s, 0) == 0.0 && WaitFor(s, 1) == s.wait
  {
    assert (n + k) as real == n as real + k as real;
  }

  lemma {:induction false} ItemWaited(s: Setup, index: nat, tries: nat, spent: real, waited: real)
    ensures var r := TryItem(s, index, tries, spent, waited);
      r.tries > tries && r.waited == waited + WaitFor(s, r.tries - 1 - tries)
    decreases if s.retries > tries then s.retries - tries else 0
  {
    hide Charge, RateLimited, WaitFor;
    var r := TryItem(s, index, tries, spent, waited);
    MoreWaiting(s, 1, r.tries - 2 - tries);
    if RateLimited(s.run(index, tries)) && tries < s.retries && spent + Charge(s, index, tries) < s.roundBudget
      && waited + s.wait <= s.maxWait {
      ItemWaited(s, index, tries + 1, spent + Charge(s, index, tries), waited + s.wait);
    }
  }

  /** The time a run waits is the wait times the number of retries. */
  lemma {:induction false} WaitedIsRetries(s: Setup, index: nat, spent: real, waited: real)
    requires index <= s.items
    ensures var r := RunFrom(s, index, spent, waited); r.waited == waited + WaitFor(s, Retried(r.tries))
    decreases s.items - index
  {
    hide Charge, RateLimited, WaitFor;
    MoreWaiting(s, 0, 0);
    if index < s.items && spent < s.roundBudget {
      var item := TryItem(s, index, 0, spent, waited);
      ItemWaited(s, index, 0, spent, waited);
      var r := RunFrom(s, index, spent, waited);
      assert r.tries[0] == item.tries;
      if item.gaveUp {
        assert r.tries[1..] == [];
      } else {
        WaitedIsRetries(s, index + 1, item.spent, item.waited);
        var rest := RunFrom(s, index + 1, item.spent, item.waited);
        assert r.tries[1..] == rest.tries;
        MoreWaiting(s, item.tries - 1, Retried(rest.tries));
      }
    }
  }

  // After its attempt number `last`, with so much spent and waited: rate-limited, with a retry and
  // money left, but another wait would exceed the cap.
  ghost predicate OutOfWaiting(s: Setup, item: int, last: int, spent: real, waited: real) {
    && item >= 0 && last >= 0
    && s.run(item, last).degraded && s.run(item, last).error.RateLimitError?
    && last < s.retries && spent < s.roundBudget && waited + s.wait > s.maxWait
  }

  lemma {:induction false} GaveUpIff(s: Setup, index: nat, tries: nat, spent: real, waited: real)
    ensures var r := TryItem(s, index, tries, spent, waited);
      r.tries > tries && (r.gaveUp <==> OutOfWaiting(s, index, r.tries - 1, r.spent, r.waited))
    decreases if s.retries > tries then s.retries - tries else 0
  {
    hide Charge;
    var spent' := spent + Charge(s, index, tries);
    if RateLimited(s.run(index, tries)) && tries < s.retries && spent' < s.roundBudget && waited + s.wait <= s.maxWait {
      GaveUpIff(s, index, tries + 1, spent', waited + s.wait);
    }
  }

  // The money spent and the time waited once these items have been tried.
  ghost function SpentBy(s: Setup, index: nat, tries: seq<nat>, spent: real): real {
    spent + Sum(AllCharges(s, index, tries))
  }

  ghost function WaitedBy(s: Setup, tries: seq<nat>, waited: real): real {
    waited + WaitFor(s, Retried(tries))
  }

  lemma FirstItemBy(s: Setup, index: nat, tries: seq<nat>, spent: real, waited: real)
    requires tries != []
    ensures SpentBy(s, index, tries, spent)
         == SpentBy(s, index + 1, tries[1..], spent + Sum(Charges(s, index, 0, tries[0])))
    ensures WaitedBy(s, tries, waited) == WaitedBy(s, tries[1..], waited + WaitFor(s, tries[0] as int - 1))
    ensures SpentBy(s, index, [], spent) == spent && WaitedBy(s, [], waited) == waited
  {
    hide Charges, WaitFor;
    SumConcat(Charges(s, index, 0, tries[0]), AllCharges(s, index + 1, tries[1..]));
    MoreWaiting(s, tries[0] as int - 1, Retried(tries[1..]));
  }

  // Item k of a run from `index` ended out of waiting, by the money and the waiting of the items so far.
  ghost predicate EndedOutOfWaiting(s: Setup, index: nat, tries: seq<nat>, k: nat, spent: real, waited: real)
    requires k < |tries|
  {
    OutOfWaiting(s, index + k, tries[k] as int - 1,
      SpentBy(s, index, tries[..k + 1], spent), WaitedBy(s, tries[..k + 1], waited))
  }

  /** Why and when a run ends: it stops at the waiting cap exactly when its last item ended out of waiting, and at
      the budget exactly when items are left over and the money is spent; otherwise it has run every item.
      No item before the last ended out of waiting. */
  lemma ExitLaw(s: Setup)
    ensures var r := RunFrom(s, 0, 0.0, 0.0); var n := |r.tries|;
      && n <= s.items
      && (r.stopped == Some(RateLimitPersists) <==>
            n > 0 && OutOfWaiting(s, n - 1, r.tries[n - 1] as int - 1, r.spent, r.waited))
      && (r.stopped == Some(BudgetReached) <==> n < s.items && r.spent >= s.roundBudget)
      && (r.stopped == None ==> n == s.items)
      && forall k :: 0 <= k < n - 1 ==> !EndedOutOfWaiting(s, 0, r.tries, k, 0.0, 0.0)
  {
    hide OutOfWaiting;
    NothingLost(s, 0, 0.0, 0.0);
    Exits(s, 0, 0.0, 0.0);
  }

  lemma {:induction false} Exits(s: Setup, index: nat, spent: real, waited: real)
    requires index <= s.items
    ensures var r := RunFrom(s, index, spent, waited); var n := |r.tries|;
      && (r.stopped == Some(RateLimitPersists) <==>
            n > 0 && OutOfWaiting(s, index + n - 1, r.tries[n - 1] as int - 1, r.spent, r.waited))
      && (r.stopped == Some(BudgetReached) <==> index + n < s.items && r.spent >= s.roundBudget)
      && forall k :: 0 <= k < n - 1 ==> !EndedOutOfWaiting(s, index, r.tries, k, spent, waited)
    decreases s.items - index
  {
    hide OutOfWaiting, Charge;
    if index < s.items && spent < s.roundBudget {
      var item := TryItem(s, index, 0, spent, waited);
      var r := RunFrom(s, index, spent, waited);
      GaveUpIff(s, index, 0, spent, waited);
      if item.gaveUp {
        GaveUpBelowBudget(s, index, 0, spent, waited);
      } else {
        var rest := RunFrom(s, index + 1, item.spent, item.waited);
        Exits(s, index + 1, item.spent, item.waited);
        assert r.tries[1..] == rest.tries;
        ItemBelowBudget(s, index, 0, spent, waited);
        ItemWaited(s, index, 0, spent, waited);
        if rest.tries == [] { NothingTried(s, index + 1, item.spent, item.waited); }
        forall k | 0 <= k < |r.tries| - 1 ensures !EndedOutOfWaiting(s, index, r.tries, k, spent, waited) {
          EndedShift(s, index, r.tries, k, spent, waited, item);
        }
      }
    }
  }

  lemma GaveUpBelowBudget(s: Setup, index: nat, tries: nat, spent: real, waited: real)
    ensures var r := TryItem(s, index, tries, spent, waited);
      r.tries > tries && (OutOfWaiting(s, index, r.tries - 1, r.spent, r.waited) ==> r.spent < s.roundBudget)
  {
    GaveUpIff(s, index, tries, spent, waited);
  }

  // A run that starts no item has run all of them or has no money.
  lemma NothingTried(s: Setup, index: nat, spent: real, waited: real)
    requires index <= s.items && RunFrom(s, index, spent, waited).tries == []
    ensures index == s.items || spent >= s.roundBudget
    ensures var r := RunFrom(s, index, spent, waited); r.spent == spent && r.waited == waited
  {
  }

  lemma EndedShift(s: Setup, index: nat, tries: seq<nat>, k: nat, spent: real, waited: real, item: ItemRun)
    requires k < |tries| && tries[0] == item.tries > 0
    requires item.spent == spent + Sum(Charges(s, index, 0, item.tries))
    requires item.waited == waited + WaitFor(s, item.tries - 1)
    ensures k > 0 ==> (EndedOutOfWaiting(s, index, tries, k, spent, waited)
                       <==> EndedOutOfWaiting(s, index + 1, tries[1..], k - 1, item.spent, item.waited))
    ensures k == 0 ==> (EndedOutOfWaiting(s, index, tries, k, spent, waited)
                        <==> OutOfWaiting(s, index, item.tries - 1, item.spent, item.waited))
  {
    hide OutOfWaiting, Charge, Charges, SpentBy, WaitedBy, WaitFor;
    var so := tries[..k + 1];
    FirstItemBy(s, index, so, spent, waited);
    assert so[0] == item.tries;
    assert SpentBy(s, index, so, spent) == SpentBy(s, index + 1, so[1..], item.spent);
    assert WaitedBy(s, so, waited) == WaitedBy(s, so[1..], item.waited);
    if k > 0 {
      assert so[1..] == tries[1..][..k - 1 + 1] && tries[1..][k - 1] == tries[k];
      assert index + 1 + (k - 1) == index + k;
    } else {
      assert so[1..] == [];
      FirstItemBy(s, index + 1, so, item.spent, item.waited);
    }
  }

  // Every attempt at the item before the given one was rate-limited.
  ghost predicate LimitedBefore(s: Setup, item: nat, attempt: nat) {
    forall j :: 0 <= j < attempt ==> RateLimited(s.run(item, j))
  }

  /** In a whole run, result k is about item k and carries the verdict of its last attempt; all the
      earlier ones were rate-limited. */
  lemma {:induction false} ResultsAreLastAttempts(s: Setup, index: nat, spent: real, waited: real, k: nat)
    requires index <= s.items && k < |RunFrom(s, index, spent, waited).tries|
    ensures var tries := RunFrom(s, index, spent, waited).tries;
      && (forall i :: 0 <= i < |tries| ==> tries[i] > 0)
      && var result := Results(s, index, tries)[k];
        && result.index == index + k && result.retries == tries[k] - 1
        && result.last == s.run(index + k, tries[k] - 1)
        && LimitedBefore(s, index + k, tries[k] - 1)
    decreases s.items - index
  {
    hide CostUsd, RateLimited, TryItem, Attempts, WithAllAttempts;
    NothingLost(s, index, spent, waited);
    var item := TryItem(s, index, 0, spent, waited);
    RetriesAreJustified(s, index, 0, spent, waited);
    var tries := RunFrom(s, index, spent, waited).tries;
    if k > 0 {
      ResultsAreLastAttempts(s, index + 1, item.spent, item.waited, k - 1);
      assert tries[k] == RunFrom(s, index + 1, item.spent, item.waited).tries[k - 1];
    }
    LastAttempt(s, index + k, tries[k]);
  }

  // One column of the tokens of an item's attempts.
  ghost function TokenColumn(s: Setup, item: nat, tries: nat, column: Tokens -> nat): (c: seq<int>)
    ensures |c| == tries
  {
    seq(tries, k requires 0 <= k < tries => column(s.run(item, k).tokens) as int)
  }

  lemma {:induction false} TokensAddUp(s: Setup, item: nat, tries: nat)
    ensures var t := TotalTokens(Attempts(s, item, tries));
      && t.prompt == SumInt(TokenColumn(s, item, tries, (t: Tokens) => t.prompt))
      && t.cached == SumInt(TokenColumn(s, item, tries, (t: Tokens) => t.cached))
      && t.completion == SumInt(TokenColumn(s, item, tries, (t: Tokens) => t.completion))
  {
    if tries > 0 {
      TokensAddUp(s, item, tries - 1);
      assert Attempts(s, item, tries)[..tries - 1] == Attempts(s, item, tries - 1);
      OneMoreColumn(s, item, tries, (t: Tokens) => t.prompt);
      OneMoreColumn(s, item, tries, (t: Tokens) => t.cached);
      OneMoreColumn(s, item, tries, (t: Tokens) => t.completion);
    }
  }

  lemma OneMoreColumn(s: Setup, item: nat, tries: nat, column: Tokens -> nat)
    requires tries > 0
    ensures SumInt(TokenColumn(s, item, tries, column))
         == SumInt(TokenColumn(s, item, tries - 1, column)) + column(s.run(item, tries - 1).tokens)
  {
    assert TokenColumn(s, item, tries, column)[..tries - 1] == TokenColumn(s, item, tries - 1, column);
  }

  /** The tokens of a result are those of all its attempts, and its cost is what these tokens cost: the
      cached ones, at most all of the prompt, at their own price. */
  lemma ResultAddsUp(s: Setup, item: nat, tries: nat)
    requires tries > 0
    ensures var result := WithAllAttempts(item, Attempts(s, item, tries), s.prices); var t := result.tokens;
      var cached := if t.cached <= t.prompt then t.cached else t.prompt;
      && t.prompt == SumInt(TokenColumn(s, item, tries, (t: Tokens) => t.prompt))
      && t.cached == SumInt(TokenColumn(s, item, tries, (t: Tokens) => t.cached))
      && t.completion == SumInt(TokenColumn(s, item, tries, (t: Tokens) => t.completion))
      && 1000000.0 * result.cost
         == (t.prompt - cached) as real * s.prices.input + cached as real * s.prices.cached
            + t.completion as real * s.prices.output
  {
    hide TotalTokens;
    TokensAddUp(s, item, tries);
    CostIsPrice(TotalTokens(Attempts(s, item, tries)), s.prices);
    hide CostUsd;
  }

  lemma LastAttempt(s: Setup, item: nat, tries: nat)
    requires tries > 0
    ensures var result := WithAllAttempts(item, Attempts(s, item, tries), s.prices);
      result.index == item && result.retries == tries - 1 && result.last == s.run(item, tries - 1)
  {
    hide CostUsd, RateLimited, TryItem;
  }

  // ----- reported cost against spent money

  function AttemptCosts(attempts: seq<Attempt>, prices: Prices): (c: seq<real>)
    ensures |c| == |attempts|
  {
    seq(|attempts|, k requires 0 <= k < |attempts| => CostUsd(attempts[k].tokens, prices))
  }

  function Spent(attempts: seq<Attempt>, prices: Prices): real {
    Sum(AttemptCosts(attempts, prices))
  }

  lemma SpentStep(attempts: seq<Attempt>, prices: Prices)
    ensures attempts == [] ==> Spent(attempts, prices) == 0.0
    ensures attempts != [] ==> var n := |attempts| - 1;
      Spent(attempts, prices) == Spent(attempts[..n], prices) + CostUsd(attempts[n].tokens, prices)
  {
    hide CostUsd;
    if attempts != [] {
      var n := |attempts| - 1;
      assert AttemptCosts(attempts, prices)[..n] == AttemptCosts(attempts[..n], prices);
    }
  }

  // Cached tokens that were charged as such, attempt by attempt.
  ghost function CachedCharged(attempts: seq<Attempt>): nat {
    if attempts == [] then 0
    else
      var t := attempts[|attempts| - 1].tokens;
      CachedCharged(attempts[..|attempts| - 1]) + Min(t.cached, t.prompt)
  }

  ghost predicate NeverOver(attempts: seq<Attempt>) {
    forall k :: 0 <= k < |attempts| ==> attempts[k].tokens.cached <= attempts[k].tokens.prompt
  }

  ghost predicate NeverUnder(attempts: seq<Attempt>) {
    forall k :: 0 <= k < |attempts| ==> attempts[k].tokens.prompt <= attempts[k].tokens.cached
  }

  // `min` is superadditive, and additive only when every attempt falls on the same side.
  lemma {:induction false} CachedSuperadditive(attempts: seq<Attempt>)
    ensures var t := TotalTokens(attempts);
      && CachedCharged(attempts) <= t.cached && CachedCharged(attempts) <= t.prompt
      && (CachedCharged(attempts) == t.cached <==> NeverOver(attempts))
      && (CachedCharged(attempts) == t.prompt <==> NeverUnder(attempts))
  {
    if attempts != [] {
      var init, last := attempts[..|attempts| - 1], attempts[|attempts| - 1];
      CachedSuperadditive(init);
      assert attempts == init + [last];
      assert NeverOver(attempts) <==> NeverOver(init) && last.tokens.cached <= last.tokens.prompt;
      assert NeverUnder(attempts) <==> NeverUnder(init) && last.tokens.prompt <= last.tokens.cached;
    }
  }

  // `prompt` tokens of which `cached` at the cached price.
  ghost function Price(prompt: nat, cached: nat, completion: nat, prices: Prices): real {
    (prompt - cached) as real * prices.input + cached as real * prices.cached + completion as real * prices.output
  }

  lemma PriceAdds(p1: nat, c1: nat, o1: nat, p2: nat, c2: nat, o2: nat, prices: Prices)
    ensures Price(p1 + p2, c1 + c2, o1 + o2, prices) == Price(p1, c1, o1, prices) + Price(p2, c2, o2, prices)
  {
    Split(p1 - c1, p2 - c2, p1 + p2 - (c1 + c2), prices.input);
    Split(c1, c2, c1 + c2, prices.cached);
    Split(o1, o2, o1 + o2, prices.output);
  }

  lemma Split(a: int, b: int, s: int, x: real)
    requires s == a + b
    ensures s as real * x == a as real * x + b as real * x
  {
    assert s as real == a as real + b as real;
  }

  lemma {:induction false} SpentInTokens(attempts: seq<Attempt>, prices: Prices)
    ensures var t := TotalTokens(attempts);
      1000000.0 * Spent(attempts, prices) == Price(t.prompt, CachedCharged(attempts), t.completion, prices)
  {
    hide Price, Spent, CostUsd;
    SpentStep(attempts, prices);
    if attempts == [] {
      NoTokens(prices);
    } else {
      var init, last := attempts[..|attempts| - 1], attempts[|attempts| - 1].tokens;
      SpentInTokens(init, prices);
      var t := TotalTokens(init);
      var cached := Min(last.cached, last.prompt);
      PriceAdds(t.prompt, CachedCharged(init), t.completion, last.prompt, cached, last.completion, prices);
      CostIsPrice(last, prices);
      assert 1000000.0 * CostUsd(last, prices) == Price(last.prompt, cached, last.completion, prices);
    }
  }

  lemma NoTokens(prices: Prices)
    ensures Price(0, 0, 0, prices) == 0.0
  {
  }

  lemma CostIsPrice(t: Tokens, prices: Prices)
    ensures 1000000.0 * CostUsd(t, prices) == Price(t.prompt, Min(t.cached, t.prompt), t.completion, prices)
  {
  }

  lemma CheaperCached(p: nat, c: nat, d: nat, o: nat, prices: Prices)
    requires c <= d
    ensures Price(p, c, o, prices) - Price(p, d, o, prices) == (d - c) as real * (prices.input - prices.cached)
  {
    Split(p - d, d - c, p - c, prices.input);
    Split(c, d - c, d, prices.cached);
  }

  /** The reported cost of an item never exceeds what its attempts cost when cached input is no
      dearer; and it equals it exactly when the two prices agree or all attempts report cached
      tokens on the same side of their prompt tokens. */
  lemma ReportedAtMostSpent(attempts: seq<Attempt>, prices: Prices)
    requires prices.cached <= prices.input
    ensures var reported, spent := CostUsd(TotalTokens(attempts), prices), Spent(attempts, prices);
      && reported <= spent
      && (reported == spent <==> prices.cached == prices.input || NeverOver(attempts) || NeverUnder(attempts))
  {
    hide Price, CostUsd, Spent, NeverOver, NeverUnder;
    var t := TotalTokens(attempts);
    var merged := Min(t.cached, t.prompt);
    CachedSuperadditive(attempts);
    SpentInTokens(attempts, prices);
    CostIsPrice(t, prices);
    CheaperCached(t.prompt, CachedCharged(attempts), merged, t.completion, prices);
    Gap(merged - CachedCharged(attempts), prices.input - prices.cached,
      1000000.0 * Spent(attempts, prices) - 1000000.0 * CostUsd(t, prices));
  }

  /** Two attempts on different sides of the cap, merged, report less than they cost. */
  lemma MergedCostCanBeLess()
    ensures var prices := Prices(1.0, 0.0, 0.0);
      var attempts := [Attempt(true, RateLimitError, Tokens(1, 2, 0)), Attempt(false, NoError, Tokens(1, 0, 0))];
      CostUsd(TotalTokens(attempts), prices) < Spent(attempts, prices)
  {
    hide CostUsd, Spent, TotalTokens;
    var attempts := [Attempt(true, RateLimitError, Tokens(1, 2, 0)), Attempt(false, NoError, Tokens(1, 0, 0))];
    assert attempts[0].tokens.cached > attempts[0].tokens.prompt;
    assert attempts[1].tokens.cached < attempts[1].tokens.prompt;
    ReportedAtMostSpent(attempts, Prices(1.0, 0.0, 0.0));
  }

  lemma Gap(n: nat, x: real, gap: real)
    requires x >= 0.0 && gap == n as real * x
    ensures gap >= 0.0 && (gap == 0.0 <==> n == 0 || x == 0.0)
  {
  }

  lemma SpentIsCharges(s: Setup, index: nat, tries: nat)
    ensures Spent(Attempts(s, index, tries), s.prices) == Sum(Charges(s, index, 0, tries))
  {
    assert AttemptCosts(Attempts(s, index, tries), s.prices) == Charges(s, index, 0, tries);
  }

  function ReportedCosts(results: seq<ItemResult>): (c: seq<real>)
    ensures |c| == |results|
  {
    seq(|results|, k requires 0 <= k < |results| => results[k].cost)
  }

  function Reported(results: seq<ItemResult>): real {
    Sum(ReportedCosts(results))
  }

  lemma FirstReported(results: seq<ItemResult>)
    ensures results == [] ==> Reported(results) == 0.0
    ensures results != [] ==> Reported(results) == results[0].cost + Reported(results[1..])
  {
    if results != [] {
      var first, rest := [results[0].cost], ReportedCosts(results[1..]);
      assert ReportedCosts(results) == first + rest && first[..0] == [];
      SumConcat(first, rest);
      assert Sum(first) == Sum(first[..0]) + results[0].cost;
    }
  }

  // All attempts of the item report at most as many cached as prompt tokens, or all at least as many.
  ghost predicate OneSided(s: Setup, item: nat, tries: nat) {
    NeverOver(Attempts(s, item, tries)) || NeverUnder(Attempts(s, item, tries))
  }

  lemma {:induction false} ReportedAtMostCharged(s: Setup, index: nat, tries: seq<nat>)
    requires s.prices.cached <= s.prices.input && forall k :: 0 <= k < |tries| ==> tries[k] > 0
    ensures Reported(Results(s, index, tries)) <= Sum(AllCharges(s, index, tries))
    ensures Reported(Results(s, index, tries)) == Sum(AllCharges(s, index, tries)) <==>
      || s.prices.cached == s.prices.input
      || forall k, item: nat :: 0 <= k < |tries| && item == index + k ==> OneSided(s, item, tries[k])
    decreases |tries|
  {
    hide CostUsd, TotalTokens, Spent, Sum, Charges, Attempts, OneSided, Reported;
    FirstReported(Results(s, index, tries));
    if tries != [] {
      ReportedAtMostCharged(s, index + 1, tries[1..]);
      ItemReported(s, index, tries[0]);
      SumConcat(Charges(s, index, 0, tries[0]), AllCharges(s, index + 1, tries[1..]));
      var r := Results(s, index, tries);
      assert r[0] == WithAllAttempts(index, Attempts(s, index, tries[0]), s.prices);
      assert r[1..] == Results(s, index + 1, tries[1..]);
      assert tries == [tries[0]] + tries[1..];
    } else {
      NoCharges(s, index, 0, 0.0);
    }
  }

  lemma ItemReported(s: Setup, index: nat, tries: nat)
    requires s.prices.cached <= s.prices.input && tries > 0
    ensures var cost := WithAllAttempts(index, Attempts(s, index, tries), s.prices).cost;
      var charged := Sum(Charges(s, index, 0, tries));
      && cost <= charged
      && (cost == charged <==> s.prices.cached == s.prices.input || OneSided(s, index, tries))
  {
    hide CostUsd, TotalTokens, Spent, Sum, Charges, NeverOver, NeverUnder;
    ReportedAtMostSpent(Attempts(s, index, tries), s.prices);
    SpentIsCharges(s, index, tries);
  }

  /** The reported costs of a run add up to at most the money that drove its budget, and to exactly
      that money when cached tokens are not cheaper or every item's attempts fall on one side. */
  lemma CostConserved(s: Setup)
    requires s.prices.cached <= s.prices.input
    ensures var r := RunFrom(s, 0, 0.0, 0.0);
      && (forall k :: 0 <= k < |r.tries| ==> r.tries[k] > 0)
      && Reported(Results(s, 0, r.tries)) <= r.spent
      && (Reported(Results(s, 0, r.tries)) == r.spent <==>
            s.prices.cached == s.prices.input || forall k :: 0 <= k < |r.tries| ==> OneSided(s, k, r.tries[k]))
  {
    hide RunFrom, Reported, OneSided, AllCharges;
    var r := RunFrom(s, 0, 0.0, 0.0);
    NothingLost(s, 0, 0.0, 0.0);
    BudgetRespected(s, 0, 0.0, 0.0);
    ReportedAtMostCharged(s, 0, r.tries);
  }
}
