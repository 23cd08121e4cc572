/** The bounded validate-and-correct loop of `enforce` in `apps/cli/src/output_schema.rs`, over any way
    of reading an answer out of a transcript. */
module CorrectionLoop {
  import opened Results

  const MAX_RETRIES: nat := 2

  /** What a correction tells the agent: the validation errors, or that no JSON was found. */
  datatype Correction = Correction(errors: seq<string>, hadJson: bool)

  datatype Failure = HostFailed(why: string) | SchemaMismatch(hadJson: bool, errors: seq<string>)

  /** The host as one run sees it: `fetch(k)` is the transcript after turn `k`, `send(k)` the fate of
      the k-th correction. */
  datatype Host<!T> = Host(fetch: nat -> Result<T, string>, send: nat -> Result<(), string>)

  function Errors<J>(check: J -> seq<string>, answer: Option<J>): seq<string> {
    match answer case None => [] case Some(v) => check(v)
  }

  /** An answer the loop goes on from: no JSON in it, or JSON with errors. */
  predicate IsRejected<J>(check: J -> seq<string>, answer: Option<J>) {
    answer.None? || Errors(check, answer) != []
  }

  /** Each of `prompts` went out for a rejected answer, and every one but perhaps the last arrived. */
  ghost predicate Corrects<T(!new), J(!new)>(answer: T -> Option<J>, check: J -> seq<string>, host: Host<T>, prompts: seq<Correction>) {
    && |prompts| <= 2
    && (forall k :: 0 <= k < |prompts| ==> IsCorrection(answer, check, host, k, prompts[k]))
    && (forall k :: 0 <= k < |prompts| - 1 ==> host.send(k).Ok?)
  }

  ghost predicate IsCorrection<T(!new), J(!new)>(answer: T -> Option<J>, check: J -> seq<string>, host: Host<T>, k: nat, prompt: Correction) {
    && host.fetch(k).Ok?
    && var a := answer(host.fetch(k).value);
       IsRejected(check, a) && prompt == Correction(Errors(check, a), a.Some?)
  }

  predicate LastSent<T>(host: Host<T>, n: nat) {
    n > 0 ==> host.send(n - 1).Ok?
  }

  /** The verdict is about the answer after the `n`-th and last correction. */
  ghost predicate IsVerdict<T(!new), J(!new)>(answer: T -> Option<J>, check: J -> seq<string>, host: Host<T>, n: nat,
                                              r: Result<J, Failure>)
  {
    match r
    case Ok(v) =>
      LastSent(host, n) && host.fetch(n).Ok? && answer(host.fetch(n).value) == Some(v) && check(v) == []
    case Err(SchemaMismatch(hadJson, errors)) =>
      && n == 2 && LastSent(host, n) && host.fetch(n).Ok?
      && var a := answer(host.fetch(n).value);
         IsRejected(check, a) && hadJson == a.Some? && errors == Errors(check, a)
    case Err(HostFailed(why)) =>
      (n > 0 && host.send(n - 1) == Err(why)) || (LastSent(host, n) && host.fetch(n) == Err(why))
  }

  method Enforce<T(!new), J(!new)>(answer: T -> Option<J>, check: J -> seq<string>, host: Host<T>)
    returns (r: Result<J, Failure>, prompts: seq<Correction>)
    ensures Corrects(answer, check, host, prompts)
    ensures IsVerdict(answer, check, host, |prompts|, r)
  {
    prompts := [];
    while true
      invariant Corrects(answer, check, host, prompts) && LastSent(host, |prompts|)
      decreases MAX_RETRIES - |prompts|
    {
      var attempt := |prompts|;
      if host.fetch(attempt).Err? {
        return Err(HostFailed(host.fetch(attempt).error)), prompts;
      }
      var parsed := answer(host.fetch(attempt).value);
      var errors := [];
      if parsed.Some? {
        errors := check(parsed.value);
        if errors == [] {
          return Ok(parsed.value), prompts;
        }
      }
      if attempt >= MAX_RETRIES {
        return Err(SchemaMismatch(parsed.Some?, errors)), prompts;
      }
      prompts := prompts + [Correction(errors, parsed.Some?)];
      if host.send(attempt).Err? {
        return Err(HostFailed(host.send(attempt).error)), prompts;
      }
    }
  }

  lemma NotLonger<T(!new), J(!new)>(answer: T -> Option<J>, check: J -> seq<string>, host: Host<T>,
                                    p1: seq<Correction>, r1: Result<J, Failure>, p2: seq<Correction>, r2: Result<J, Failure>)
    requires Corrects(answer, check, host, p1) && IsVerdict(answer, check, host, |p1|, r1)
    requires Corrects(answer, check, host, p2) && IsVerdict(answer, check, host, |p2|, r2)
    requires |p1| <= |p2|
    ensures p1 == p2 && r1 == r2
  {
    assert |p1| < |p2| ==> !IsCorrection(answer, check, host, |p1|, p2[|p1|]);
    forall k | 0 <= k < |p1|
      ensures p1[k] == p2[k]
    {
      assert IsCorrection(answer, check, host, k, p1[k]) && IsCorrection(answer, check, host, k, p2[k]);
    }
  }

  /** The contract of `Enforce` fixes its answer and its prompts: the first acceptable answer of at
      most three, or the reason there is none. */
  lemma EnforceIsDetermined<T(!new), J(!new)>(answer: T -> Option<J>, check: J -> seq<string>, host: Host<T>,
                                    p1: seq<Correction>, r1: Result<J, Failure>, p2: seq<Correction>, r2: Result<J, Failure>)
    requires Corrects(answer, check, host, p1) && IsVerdict(answer, check, host, |p1|, r1)
    requires Corrects(answer, check, host, p2) && IsVerdict(answer, check, host, |p2|, r2)
    ensures p1 == p2 && r1 == r2
  {
    if |p1| <= |p2| {
      NotLonger(answer, check, host, p1, r1, p2, r2);
    } else {
      NotLonger(answer, check, host, p2, r2, p1, r1);
    }
  }
}
