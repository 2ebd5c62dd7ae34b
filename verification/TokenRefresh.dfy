/** The browser client's token refresh. Calls of apiClient run interleaved on one event loop; between
    two awaits a call is atomic, and such a stretch is one event. */
module TokenRefresh {
  import opened Wrappers

  type Token = nat
  type CallId = nat
  type RefreshId = nat

  /** localStorage. */
  datatype Store = Store(access: Option<Token>, refresh: Option<Token>)

  /** A run of refreshAccessToken: its POST is under way; it has returned, but the `finally` callback
      has still to run; its promise is resolved. `shared` tells a promise kept in refreshPromise
      from one made by the fallback after `??`. */
  datatype Phase = Posting | Returned(value: Option<Token>) | Resolved(value: Option<Token>)
  datatype Refresh = Refresh(starter: CallId, shared: bool, phase: Phase)

  /** Where a call of apiClient is suspended. */
  datatype Pc =
    | FirstSent(token: Option<Token>, toRefresh: bool)
    | Awaiting(r: RefreshId)
    | RetrySent(r: RefreshId, newToken: Token)
    | Finished

  datatype Call = Call(pc: Pc, sent: nat)

  datatype State = State(
    store: Store,
    isRefreshing: bool,
    refreshPromise: Option<RefreshId>,
    calls: map<CallId, Call>,
    refreshes: map<RefreshId, Refresh>)

  datatype Event =
    | Begin(c: CallId, toRefresh: bool)
    | FirstAnswer(c: CallId, status: nat, r: RefreshId)
    | FirstLost(c: CallId)
    | RefreshAnswer(r: RefreshId, value: Option<Token>)
    | Cleanup(r: RefreshId)
    | Resume(c: CallId)
    | RetryAnswer(c: CallId, ok: bool)
    | RetryLost(c: CallId)
    | Login(access: Token, refresh: Token)
    | Logout

  function Cleared(s: Store): Store { Store(None, None) }

  /** The call takes the branch for an expired token. */
  predicate Expired(s: State, c: CallId, status: nat) {
    && c in s.calls && s.calls[c].pc.FirstSent?
    && status == 401 && s.calls[c].pc.token.Some? && !s.calls[c].pc.toRefresh
  }

  /** Fresh names for the calls and refreshes that an event starts; answers only to what is sent. */
  predicate Enabled(s: State, e: Event) {
    match e
    case Begin(c, _) => c !in s.calls
    case FirstAnswer(c, _, r) => c in s.calls && s.calls[c].pc.FirstSent? && r !in s.refreshes
    case FirstLost(c) => c in s.calls && s.calls[c].pc.FirstSent?
    case RefreshAnswer(r, _) => r in s.refreshes && s.refreshes[r].phase.Posting?
    case Cleanup(r) => r in s.refreshes && s.refreshes[r].phase.Returned?
    case Resume(c) =>
      c in s.calls && s.calls[c].pc.Awaiting? && s.calls[c].pc.r in s.refreshes
      && s.refreshes[s.calls[c].pc.r].phase.Resolved?
    case RetryAnswer(c, _) => c in s.calls && s.calls[c].pc.RetrySent?
    case RetryLost(c) => c in s.calls && s.calls[c].pc.RetrySent?
    case Login(_, _) => true
    case Logout => true
  }

  /** refreshAccessToken up to its first await: without a refresh token it returns at once. */
  function StartOf(store: Store, c: CallId, shared: bool): Refresh {
    Refresh(c, shared, if store.refresh.Some? then Posting else if shared then Returned(None) else Resolved(None))
  }

  function Next(s: State, e: Event): State
    requires Enabled(s, e)
  {
    match e
    case Begin(c, toRefresh) => s.(calls := s.calls[c := Call(FirstSent(s.store.access, toRefresh), 1)])
    case FirstAnswer(c, status, r) =>
      if !Expired(s, c, status) then s.(calls := s.calls[c := s.calls[c].(pc := Finished)])
      else
        var s1 := if s.isRefreshing then s
                  else s.(isRefreshing := true, refreshPromise := Some(r),
                          refreshes := s.refreshes[r := StartOf(s.store, c, true)]);
        if s1.refreshPromise.Some? then
          s1.(calls := s1.calls[c := s1.calls[c].(pc := Awaiting(s1.refreshPromise.value))])
        else // the fallback
          s1.(calls := s1.calls[c := s1.calls[c].(pc := Awaiting(r))],
              refreshes := s1.refreshes[r := StartOf(s1.store, c, false)])
    case FirstLost(c) => s.(calls := s.calls[c := s.calls[c].(pc := Finished)])
    case RefreshAnswer(r, value) =>
      var phase := if s.refreshes[r].shared then Returned(value) else Resolved(value);
      s.(refreshes := s.refreshes[r := s.refreshes[r].(phase := phase)],
         store := if value.Some? then s.store.(access := value) else s.store)
    case Cleanup(r) =>
      s.(isRefreshing := false, refreshPromise := None,
         refreshes := s.refreshes[r := s.refreshes[r].(phase := Resolved(s.refreshes[r].phase.value))])
    case Resume(c) =>
      var r := s.calls[c].pc.r;
      var value := s.refreshes[r].phase.value;
      if value.Some? then s.(calls := s.calls[c := Call(RetrySent(r, value.value), s.calls[c].sent + 1)])
      else s.(calls := s.calls[c := s.calls[c].(pc := Finished)], store := Cleared(s.store))
    case RetryAnswer(c, ok) =>
      s.(calls := s.calls[c := s.calls[c].(pc := Finished)], store := if ok then s.store else Cleared(s.store))
    case RetryLost(c) => s.(calls := s.calls[c := s.calls[c].(pc := Finished)])
    case Login(access, refresh) => s.(store := Store(Some(access), Some(refresh)))
    case Logout => s.(store := Cleared(s.store))
  }

  predicate Init(s: State) {
    !s.isRefreshing && s.refreshPromise.None? && s.calls == map[] && s.refreshes == map[]
  }

  predicate IsRun(s: State, run: seq<Event>)
    decreases |run|
  {
    run == [] || (Enabled(s, run[0]) && IsRun(Next(s, run[0]), run[1..]))
  }

  function Exec(s: State, run: seq<Event>): State
    requires IsRun(s, run)
    decreases |run|
  {
    if run == [] then s else Exec(Next(s, run[0]), run[1..])
  }

  // ---------- what every run keeps ----------

  predicate CallOk(s: State, call: Call) {
    match call.pc
    case FirstSent(_, _) => call.sent == 1
    case Awaiting(r) => call.sent == 1 && r in s.refreshes
    case RetrySent(r, token) => call.sent == 2 && r in s.refreshes && s.refreshes[r].phase == Resolved(Some(token))
    case Finished => 1 <= call.sent <= 2
  }

  /** The flag and the promise agree, and point to the one refresh that is not resolved. */
  predicate FlagsOk(s: State) {
    && (s.isRefreshing <==> s.refreshPromise.Some?)
    && (s.refreshPromise.Some? ==> s.refreshPromise.value in s.refreshes)
    && (forall r :: r in s.refreshes ==>
          && s.refreshes[r].shared
          && (s.refreshPromise == Some(r) <==> !s.refreshes[r].phase.Resolved?))
  }

  /** Every refresh has a starter of its own, which is past its first request. */
  predicate StartersOk(s: State) {
    && (forall r :: r in s.refreshes ==>
          s.refreshes[r].starter in s.calls && !s.calls[s.refreshes[r].starter].pc.FirstSent?)
    && (forall r1, r2 :: r1 in s.refreshes && r2 in s.refreshes && r1 != r2 ==>
          s.refreshes[r1].starter != s.refreshes[r2].starter)
  }

  predicate CallsOk(s: State) {
    forall c :: c in s.calls ==> CallOk(s, s.calls[c])
  }

  predicate Inv(s: State) {
    FlagsOk(s) && StartersOk(s) && CallsOk(s)
  }

  lemma FlagsStep(s: State, e: Event)
    requires FlagsOk(s) && Enabled(s, e)
    ensures FlagsOk(Next(s, e))
  {
  }

  lemma StartersStep(s: State, e: Event)
    requires FlagsOk(s) && StartersOk(s) && Enabled(s, e)
    ensures StartersOk(Next(s, e))
  {
    var s' := Next(s, e);
    forall r | r in s'.refreshes
      ensures s'.refreshes[r].starter in s'.calls && !s'.calls[s'.refreshes[r].starter].pc.FirstSent?
    {
      if r in s.refreshes {
        assert s'.refreshes[r].starter == s.refreshes[r].starter;
      }
    }
    forall r1, r2 | r1 in s'.refreshes && r2 in s'.refreshes && r1 != r2
      ensures s'.refreshes[r1].starter != s'.refreshes[r2].starter
    {
      if r1 in s.refreshes {
        assert s'.refreshes[r1].starter == s.refreshes[r1].starter;
      }
      if r2 in s.refreshes {
        assert s'.refreshes[r2].starter == s.refreshes[r2].starter;
      }
    }
  }

  lemma CallsStep(s: State, e: Event)
    requires FlagsOk(s) && CallsOk(s) && Enabled(s, e)
    ensures CallsOk(Next(s, e))
  {
    var s' := Next(s, e);
    forall c | c in s'.calls ensures CallOk(s', s'.calls[c]) {
      if c in s.calls {
        assert CallOk(s, s.calls[c]);
      }
    }
  }

  lemma InvStep(s: State, e: Event)
    requires Inv(s) && Enabled(s, e)
    ensures Inv(Next(s, e))
  {
    FlagsStep(s, e);
    StartersStep(s, e);
    CallsStep(s, e);
  }

  lemma {:induction false} InvRun(s: State, run: seq<Event>)
    requires Inv(s) && IsRun(s, run)
    ensures Inv(Exec(s, run))
    decreases |run|
  {
    if run != [] {
      InvStep(s, run[0]);
      InvRun(Next(s, run[0]), run[1..]);
    }
  }

  // ---------- the results ----------

  /** Single flight: in every reachable state at most one refresh is unfinished, it is the one in
      refreshPromise, and isRefreshing holds exactly while there is one. */
  lemma SingleFlight(s: State, run: seq<Event>, r: RefreshId)
    requires Init(s) && IsRun(s, run) && r in Exec(s, run).refreshes
    ensures var t := Exec(s, run);
            && (!t.refreshes[r].phase.Resolved? <==> t.refreshPromise == Some(r))
            && (t.isRefreshing <==> t.refreshPromise.Some?)
            && (t.refreshes[r].phase.Posting? ==>
                  forall other :: other in t.refreshes && t.refreshes[other].phase.Posting? ==> other == r)
  {
    InvRun(s, run);
  }

  /** The fallback after `??` never starts a refresh: an expired call waits for the shared promise. */
  lemma FallbackNeverFires(s: State, run: seq<Event>, c: CallId, r: RefreshId)
    requires Init(s) && IsRun(s, run)
    requires Enabled(Exec(s, run), FirstAnswer(c, 401, r)) && Expired(Exec(s, run), c, 401)
    ensures var t := Next(Exec(s, run), FirstAnswer(c, 401, r));
            && t.refreshPromise.Some?
            && t.calls[c].pc == Awaiting(t.refreshPromise.value)
            && forall x :: x in t.refreshes ==> t.refreshes[x].shared
  {
    InvRun(s, run);
    InvStep(Exec(s, run), FirstAnswer(c, 401, r));
  }

  /** A waiting call resumes only after the flags of its refresh have been cleared. */
  lemma ResumeAfterCleanup(s: State, run: seq<Event>, c: CallId)
    requires Init(s) && IsRun(s, run) && Enabled(Exec(s, run), Resume(c))
    ensures Exec(s, run).refreshPromise != Some(Exec(s, run).calls[c].pc.r)
  {
    InvRun(s, run);
  }

  /** No call is stuck: the refresh it waits for exists, and is answered, cleaned up or resolved. */
  lemma WaitersAreServed(s: State, run: seq<Event>, c: CallId)
    requires Init(s) && IsRun(s, run)
    requires c in Exec(s, run).calls && Exec(s, run).calls[c].pc.Awaiting?
    ensures var t := Exec(s, run);
            var r := t.calls[c].pc.r;
            && r in t.refreshes
            && (t.refreshes[r].phase.Posting? || Enabled(t, Cleanup(r)) || Enabled(t, Resume(c)))
  {
    InvRun(s, run);
    assert CallOk(Exec(s, run), Exec(s, run).calls[c]);
  }

  /** Each call sends its own request at most twice, and the second time only with the token that
      the refresh it waited for has brought. */
  lemma AtMostTwoRequests(s: State, run: seq<Event>, c: CallId)
    requires Init(s) && IsRun(s, run) && c in Exec(s, run).calls
    ensures var t := Exec(s, run);
            && t.calls[c].sent <= 2
            && (t.calls[c].pc.RetrySent? ==>
                  && t.calls[c].pc.r in t.refreshes
                  && t.refreshes[t.calls[c].pc.r].phase == Resolved(Some(t.calls[c].pc.newToken)))
  {
    InvRun(s, run);
    assert CallOk(Exec(s, run), Exec(s, run).calls[c]);
  }

  lemma {:induction false} InjectiveSize(m: map<RefreshId, CallId>, calls: set<CallId>)
    requires forall r :: r in m ==> m[r] in calls
    requires forall r1, r2 :: r1 in m && r2 in m && r1 != r2 ==> m[r1] != m[r2]
    ensures |m| <= |calls|
    decreases |m|
  {
    if m != map[] {
      var r :| r in m;
      InjectiveSize(m - {r}, calls - {m[r]});
    }
  }

  /** Every refresh was started by a call of its own, so there are never more refreshes than calls. */
  lemma RefreshesAreBounded(s: State, run: seq<Event>)
    requires Init(s) && IsRun(s, run)
    ensures |Exec(s, run).refreshes| <= |Exec(s, run).calls|
  {
    InvRun(s, run);
    var t := Exec(s, run);
    var starters := map r | r in t.refreshes :: t.refreshes[r].starter;
    InjectiveSize(starters, t.calls.Keys);
    assert starters.Keys == t.refreshes.Keys;
    assert |starters| == |starters.Keys| && |t.refreshes| == |t.refreshes.Keys| && |t.calls| == |t.calls.Keys|;
  }

  // ---------- which token is sent ----------

  /** The events that clear the tokens: a logout, and the end of a call whose refresh brought no token
      or whose retry was refused. */
  predicate Clears(s: State, e: Event)
    requires Enabled(s, e)
  {
    || e.Logout?
    || (e.Resume? && s.refreshes[s.calls[e.c].pc.r].phase.value.None?)
    || (e.RetryAnswer? && !e.ok)
  }

  /** How the stored tokens change: both by a login, both by clearing, the access token alone by a
      refresh that brings one, and in no other way. */
  lemma StoreChange(s: State, e: Event)
    requires Enabled(s, e)
    ensures var t, t' := s.store, Next(s, e).store;
            && (t'.refresh == if e.Login? then Some(e.refresh) else if Clears(s, e) then None else t.refresh)
            && (t'.access == if e.Login? then Some(e.access)
                             else if Clears(s, e) then None
                             else if e.RefreshAnswer? && e.value.Some? then e.value
                             else t.access)
  {
  }

  /** Stored tokens are lost if and only if the event is one of those that clear them. */
  lemma TokensAreLostIff(s: State, e: Event)
    requires Enabled(s, e) && s.store != Store(None, None)
    ensures Next(s, e).store == Store(None, None) <==> Clears(s, e)
  {
    StoreChange(s, e);
  }

  /** A call is sent with the access token stored when it begins; it waits for a refresh if and only if
      it had a token, was not itself a refresh and is answered 401, and ends with its first answer
      otherwise. */
  lemma WaitsIff(s: State, c: CallId, toRefresh: bool, status: nat, r: RefreshId)
    ensures Enabled(s, Begin(c, toRefresh)) ==>
              Next(s, Begin(c, toRefresh)).calls[c] == Call(FirstSent(s.store.access, toRefresh), 1)
    ensures Enabled(s, FirstAnswer(c, status, r)) ==>
              var pc, pc' := s.calls[c].pc, Next(s, FirstAnswer(c, status, r)).calls[c].pc;
              && (pc'.Awaiting? <==> status == 401 && pc.token.Some? && !pc.toRefresh)
              && (!pc'.Awaiting? ==> pc'.Finished?)
  {
  }

  /** An expired call that finds no refresh under way starts one, which is posted if and only if a
      refresh token is stored and brings nothing otherwise; one that does joins it. */
  lemma StartsIff(s: State, c: CallId, r: RefreshId)
    requires FlagsOk(s) && Enabled(s, FirstAnswer(c, 401, r)) && Expired(s, c, 401)
    ensures var t := Next(s, FirstAnswer(c, 401, r));
            && (s.refreshPromise.Some? ==>
                  t.refreshes == s.refreshes && t.calls[c].pc == Awaiting(s.refreshPromise.value))
            && (s.refreshPromise.None? ==>
                  && t.refreshPromise == Some(r) && t.calls[c].pc == Awaiting(r) && r in t.refreshes
                  && t.refreshes - {r} == s.refreshes
                  && (t.refreshes[r].phase.Posting? <==> s.store.refresh.Some?)
                  && (!t.refreshes[r].phase.Posting? ==> t.refreshes[r].phase == Returned(None)))
  {
    assert s.refreshes - {r} == s.refreshes;
  }

  /** Nothing in the run replaces or clears the access token. */
  predicate KeepsAccess(s: State, run: seq<Event>)
    requires IsRun(s, run)
    decreases |run|
  {
    run != [] ==>
      && !run[0].Login? && !Clears(s, run[0]) && !(run[0].RefreshAnswer? && run[0].value.Some?)
      && KeepsAccess(Next(s, run[0]), run[1..])
  }

  /** Every call that begins in the run is sent with x. */
  predicate Sends(s: State, run: seq<Event>, x: Token)
    requires IsRun(s, run)
    decreases |run|
  {
    run != [] ==>
      && (run[0].Begin? ==> Next(s, run[0]).calls[run[0].c].pc == FirstSent(Some(x), run[0].toRefresh))
      && Sends(Next(s, run[0]), run[1..], x)
  }

  lemma {:induction false} KeptTokenIsSent(s: State, run: seq<Event>, x: Token)
    requires IsRun(s, run) && KeepsAccess(s, run) && s.store.access == Some(x)
    ensures Exec(s, run).store.access == Some(x) && Sends(s, run, x)
    decreases |run|
  {
    if run != [] {
      StoreChange(s, run[0]);
      KeptTokenIsSent(Next(s, run[0]), run[1..], x);
    }
  }

  /** A refresh that brings x stores it, keeps the refresh token, and until a login, a newer refresh or
      an event that clears the tokens, x stays stored and every call that begins is sent with it. */
  lemma RefreshedTokenIsSent(s: State, r: RefreshId, x: Token, run: seq<Event>)
    requires Enabled(s, RefreshAnswer(r, Some(x)))
    requires var s' := Next(s, RefreshAnswer(r, Some(x))); IsRun(s', run) && KeepsAccess(s', run)
    ensures var s' := Next(s, RefreshAnswer(r, Some(x)));
            && s'.store == Store(Some(x), s.store.refresh)
            && Exec(s', run).store.access == Some(x) && Sends(s', run, x)
  {
    KeptTokenIsSent(Next(s, RefreshAnswer(r, Some(x))), run, x);
  }

  /** What a refresh has brought, its waiters get, whenever they resume: the value of an answered
      refresh never changes. */
  lemma {:induction false} AnswerStays(s: State, run: seq<Event>, r: RefreshId)
    requires IsRun(s, run) && r in s.refreshes && !s.refreshes[r].phase.Posting?
    ensures r in Exec(s, run).refreshes && !Exec(s, run).refreshes[r].phase.Posting?
    ensures Exec(s, run).refreshes[r].phase.value == s.refreshes[r].phase.value
    decreases |run|
  {
    if run != [] {
      AnswerStays(Next(s, run[0]), run[1..], r);
    }
  }

  lemma WaiterGetsAnswer(s: State, r: RefreshId, value: Option<Token>, run: seq<Event>, c: CallId)
    requires Enabled(s, RefreshAnswer(r, value))
    requires var s' := Next(s, RefreshAnswer(r, value)); IsRun(s', run) && Enabled(Exec(s', run), Resume(c))
    requires Exec(Next(s, RefreshAnswer(r, value)), run).calls[c].pc.r == r
    ensures var t := Exec(Next(s, RefreshAnswer(r, value)), run);
            var call := Next(t, Resume(c)).calls[c];
            if value.Some? then call == Call(RetrySent(r, value.value), t.calls[c].sent + 1) else call.pc.Finished?
  {
    AnswerStays(Next(s, RefreshAnswer(r, value)), run, r);
  }

  // ---------- the module's variables ----------

  /** The module-level variables and localStorage, with the suspended calls and refreshes. */
  class Client {
    var store: Store
    var isRefreshing: bool
    var refreshPromise: Option<RefreshId>
    var calls: map<CallId, Call>
    var refreshes: map<RefreshId, Refresh>

    constructor (store: Store)
      ensures Init(View()) && View().store == store
    {
      this.store := store;
      isRefreshing := false;
      refreshPromise := None;
      calls := map[];
      refreshes := map[];
    }

    function View(): State
      reads this
    {
      State(store, isRefreshing, refreshPromise, calls, refreshes)
    }

    /** apiClient from its start to its first await. */
    method Start(c: CallId, toRefresh: bool)
      requires Enabled(View(), Begin(c, toRefresh))
      modifies this
      ensures View() == Next(old(View()), Begin(c, toRefresh))
    {
      var token := store.access;
      calls := calls[c := Call(FirstSent(token, toRefresh), 1)];
    }

    /** apiClient from the answer to its first request to its next await or its end. */
    method OnFirstAnswer(c: CallId, status: nat, r: RefreshId)
      requires Enabled(View(), FirstAnswer(c, status, r))
      modifies this
      ensures View() == Next(old(View()), FirstAnswer(c, status, r))
    {
      var pc := calls[c].pc;
      if status == 401 && pc.token.Some? && !pc.toRefresh {
        if !isRefreshing {
          isRefreshing := true;
          refreshes := refreshes[r := StartOf(store, c, true)];
          refreshPromise := Some(r);
        }
        if refreshPromise.Some? {
          calls := calls[c := calls[c].(pc := Awaiting(refreshPromise.value))];
        } else {
          refreshes := refreshes[r := StartOf(store, c, false)];
          calls := calls[c := calls[c].(pc := Awaiting(r))];
        }
        return;
      }
      calls := calls[c := calls[c].(pc := Finished)];
    }

    /** The rest of refreshAccessToken. */
    method OnRefreshAnswer(r: RefreshId, value: Option<Token>)
      requires Enabled(View(), RefreshAnswer(r, value))
      modifies this
      ensures View() == Next(old(View()), RefreshAnswer(r, value))
    {
      if value.Some? {
        store := store.(access := value);
      }
      var phase := if refreshes[r].shared then Returned(value) else Resolved(value);
      refreshes := refreshes[r := refreshes[r].(phase := phase)];
    }

    /** The `finally` callback. */
    method OnCleanup(r: RefreshId)
      requires Enabled(View(), Event.Cleanup(r))
      modifies this
      ensures View() == Next(old(View()), Event.Cleanup(r))
    {
      isRefreshing := false;
      refreshPromise := None;
      refreshes := refreshes[r := refreshes[r].(phase := Resolved(refreshes[r].phase.value))];
    }

    /** apiClient from the resolved promise to its next await or its end. */
    method OnResume(c: CallId)
      requires Enabled(View(), Event.Resume(c))
      modifies this
      ensures View() == Next(old(View()), Event.Resume(c))
    {
      var r := calls[c].pc.r;
      var newToken := refreshes[r].phase.value;
      if newToken.Some? {
        calls := calls[c := Call(RetrySent(r, newToken.value), calls[c].sent + 1)];
        return;
      }
      store := Store(None, None);
      calls := calls[c := calls[c].(pc := Finished)];
    }

    /** apiClient from the answer to its retry to its end. */
    method OnRetryAnswer(c: CallId, ok: bool)
      requires Enabled(View(), RetryAnswer(c, ok))
      modifies this
      ensures View() == Next(old(View()), RetryAnswer(c, ok))
    {
      if !ok {
        store := Store(None, None);
      }
      calls := calls[c := calls[c].(pc := Finished)];
    }
  }
}
