/** The older revision's `ConfirmServer` (aternos_api.go). Its other members are the same
    code as http.go's and are modelled once, in Control. This loop differs: it sleeps before
    every poll, confirms while the server is neither preparing nor online, and returns as
    soon as it is either, which is the opposite of the newer policy. */
module Legacy {
  import opened Base
  import opened Strings
  import opened Control

  /** The older policy for one poll. */
  function LegacyReaction(status: int): (r: Reaction)
    ensures r == ConfirmAndPoll <==> status != Preparing && status != Online
    ensures r == ConfirmAndPoll || r == Return
  {
    if status != Preparing && status != Online then ConfirmAndPoll else Return
  }

  /** The two revisions disagree on a preparing server, the only status on which the newer
      one confirms, and on every status other than online, where the older one confirms and
      the newer one only waits. Neither confirms an online server. */
  lemma OppositePolicies(status: int)
    ensures status == Preparing ==> PollReaction(status) == ConfirmAndReturn && LegacyReaction(status) == Return
    ensures status != Preparing && status != Online ==>
      PollReaction(status) == SleepAndPoll && LegacyReaction(status) == ConfirmAndPoll
    ensures status == Online ==> PollReaction(status) == SleepAndPoll && LegacyReaction(status) == Return
  {
  }

  /** The older loop, at most `fuel` polls. */
  function LegacyPoll(api: Api, env: Env, fetch: Api -> Fetched, delay: Duration, fuel: nat): Polled
    decreases fuel
  {
    if fuel == 0 then OutOfFuel(api)
    else
      var f := fetch(api.(trace := api.trace + [Sleep(delay)]));
      if f.err.Fail? then Finished(f.api, f.err)
      else if LegacyReaction(f.info.status) == Return then Finished(f.api, Pass)
      else
        var c := Confirm(f.api, env);
        if c.err.Fail? then c
        else LegacyPoll(c.api, env, fetch, delay, fuel - 1)
  }

  /** `ConfirmServer(delay)` of the older revision. */
  function LegacyConfirmServer(api: Api, env: Env, delay: Duration, fuel: nat): (r: Polled)
    ensures |r.api.trace| >= |api.trace|
    ensures var steps := r.api.trace[|api.trace|..];
      forall i | 0 <= i < |steps| && steps[i] == Get("server") :: i > 0 && steps[i - 1] == Sleep(delay)
  {
    StatusFetchPollsOnce(env);
    LegacyPollSleepsFirst(api, env, StatusFetch(env), delay, fuel);
    LegacyPoll(api, env, StatusFetch(env), delay, fuel)
  }

  /** The steps of an older run: a sleep, a poll, and a confirmation after each poll that
      does not end the run; the run ends after a poll or after a failed confirmation. */
  predicate LegacyShape(steps: seq<Step>, delay: Duration)
    decreases |steps|
  {
    |steps| == 0
    || (|steps| >= 2 && steps[0] == Sleep(delay) && steps[1] == Get("server")
        && (|steps| == 2
            || (steps[2].Get? && HasPrefix(steps[2].url, ConfirmBase)
                && (|steps| == 3 || LegacyShape(steps[3..], delay)))))
  }

  lemma {:induction false} LegacyPollShape(api: Api, env: Env, fetch: Api -> Fetched, delay: Duration, fuel: nat)
    requires PollsOnce(fetch)
    ensures var r := LegacyPoll(api, env, fetch, delay, fuel);
      |r.api.trace| >= |api.trace| && r.api.trace[..|api.trace|] == api.trace
      && LegacyShape(r.api.trace[|api.trace|..], delay)
    decreases fuel
  {
    var r := LegacyPoll(api, env, fetch, delay, fuel);
    var n := |api.trace|;
    if fuel == 0 {
      assert r.api.trace[n..] == [];
    } else {
      var f := fetch(api.(trace := api.trace + [Sleep(delay)]));
      assert f.api.trace == api.trace + [Sleep(delay), Get("server")];
      if f.err.Fail? || LegacyReaction(f.info.status) == Return {
        assert r.api.trace[n..] == [Sleep(delay), Get("server")];
      } else {
        var c := Confirm(f.api, env);
        var url := ActionUrl(ConfirmBase, f.api.sec, f.api.token);
        assert c.api.trace == api.trace + [Sleep(delay), Get("server"), Get(url)];
        if c.err.Fail? {
          assert r.api.trace[n..] == [Sleep(delay), Get("server"), Get(url)];
        } else {
          LegacyPollShape(c.api, env, fetch, delay, fuel - 1);
          var rest := r.api.trace[|c.api.trace|..];
          assert r.api.trace[n..] == [Sleep(delay), Get("server"), Get(url)] + rest;
          assert (r.api.trace[n..])[3..] == rest;
        }
      }
    }
  }

  /** In that shape every status poll comes right after a sleep. */
  lemma {:induction false} LegacyShapeSleepsFirst(steps: seq<Step>, delay: Duration)
    requires LegacyShape(steps, delay)
    ensures forall i | 0 <= i < |steps| && steps[i] == Get("server") :: i > 0 && steps[i - 1] == Sleep(delay)
    decreases |steps|
  {
    if |steps| > 3 {
      LegacyShapeSleepsFirst(steps[3..], delay);
      forall i | 3 <= i < |steps| && steps[i] == Get("server")
        ensures steps[i - 1] == Sleep(delay)
      {
        assert steps[3..][i - 3] == steps[i];
        assert steps[3..][i - 4] == steps[i - 1];
      }
      assert !HasPrefix("server", ConfirmBase);
    } else if |steps| == 3 {
      assert !HasPrefix("server", ConfirmBase);
    }
  }

  /** An older run sleeps `delay` before every status poll. */
  lemma LegacyPollSleepsFirst(api: Api, env: Env, fetch: Api -> Fetched, delay: Duration, fuel: nat)
    requires PollsOnce(fetch)
    ensures |LegacyPoll(api, env, fetch, delay, fuel).api.trace| >= |api.trace|
    ensures var steps := LegacyPoll(api, env, fetch, delay, fuel).api.trace[|api.trace|..];
      forall i | 0 <= i < |steps| && steps[i] == Get("server") :: i > 0 && steps[i - 1] == Sleep(delay)
  {
    LegacyPollShape(api, env, fetch, delay, fuel);
    var r := LegacyPoll(api, env, fetch, delay, fuel);
    LegacyShapeSleepsFirst(r.api.trace[|api.trace|..], delay);
  }

  /** An older run that returns `nil` ends on a status poll, not on a confirmation: it
      stopped because the server was preparing or online. */
  lemma {:induction false} LegacyPassEndsOnPoll(api: Api, env: Env, fetch: Api -> Fetched, delay: Duration, fuel: nat)
    requires PollsOnce(fetch)
    requires LegacyPoll(api, env, fetch, delay, fuel).Finished?
    requires LegacyPoll(api, env, fetch, delay, fuel).err.Pass?
    ensures var r := LegacyPoll(api, env, fetch, delay, fuel);
      |r.api.trace| > |api.trace| && r.api.trace[|r.api.trace| - 1] == Get("server")
    decreases fuel
  {
    var f := fetch(api.(trace := api.trace + [Sleep(delay)]));
    if f.err.Pass? && LegacyReaction(f.info.status) == ConfirmAndPoll {
      var c := Confirm(f.api, env);
      LegacyPollShape(c.api, env, fetch, delay, fuel - 1);
      LegacyPassEndsOnPoll(c.api, env, fetch, delay, fuel - 1);
    }
  }

  /** A failed status poll or a failed confirmation is returned at once. */
  lemma LegacyErrorsReturn(api: Api, env: Env, fetch: Api -> Fetched, delay: Duration, fuel: nat)
    requires fuel > 0
    ensures var f := fetch(api.(trace := api.trace + [Sleep(delay)]));
      f.err.Fail? ==> LegacyPoll(api, env, fetch, delay, fuel) == Finished(f.api, f.err)
    ensures var f := fetch(api.(trace := api.trace + [Sleep(delay)]));
      f.err.Pass? && LegacyReaction(f.info.status) == ConfirmAndPoll && Confirm(f.api, env).err.Fail? ==>
        LegacyPoll(api, env, fetch, delay, fuel) == Confirm(f.api, env)
  {
  }
}
