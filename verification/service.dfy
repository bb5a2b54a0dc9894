/** The service as a whole: one request at a time against the shared
    code store, and the store after a sequence of requests. */
module Service {
  import opened Results
  import opened AuthCodes
  import opened Registration

  /** One request to one of the six endpoints. */
  datatype Request =
    | Basic(basic: BasicRequest)
    | EmailCheck(userEmail: string)
    | SendCode(userEmail: string)
    | VerifyCode(userEmail: string, inputEmailAuthCode: string)
    | SetPreferences(preferences: PreferenceRequest)
    | Complete(complete: CompleteRequest)

  /** What the world supplies to one request: the user store's duplicate
      queries, the random picks for a code and the clock reading. */
  datatype Environment = Environment(users: UserStore, draws: Draws, now: string)

  /** Dispatches one request to its stage. */
  function Handle(store: Store, req: Request, env: Environment): (o: Outcome)
    ensures !req.SendCode? ==> o.store == store
    ensures req.SendCode? ==> forall other :: other != req.userEmail ==>
              (other in o.store <==> other in store) &&
              (other in store ==> o.store[other] == store[other])
    ensures WellFormed(store) ==> WellFormed(o.store)
    ensures o.response.Success? ==> o.response.value.success
    ensures store.Keys <= o.store.Keys
    ensures o.response.Failure? ==> o.effects == []
    ensures forall e :: e in o.effects && e.SendAuthCodeEmail? ==>
              req.SendCode? && req.userEmail in o.store &&
              e == SendAuthCodeEmail(req.userEmail, o.store[req.userEmail])
  {
    match req
    case Basic(p) => Outcome(RegisterBasic(env.users, p), store, [])
    case EmailCheck(email) => Outcome(CheckEmailDuplicate(env.users, email), store, [])
    case SendCode(email) => SendEmailAuthCode(store, email, env.draws)
    case VerifyCode(email, code) => Outcome(VerifyEmailAuthCode(store, email, code), store, [])
    case SetPreferences(p) => Outcome(SavePreferences(p), store, [])
    case Complete(p) =>
      var reply := CompleteRegistration(p, env.now);
      Outcome(reply.response, store, reply.effects)
  }

  /** The store and the collaborator calls after running `reqs` in order,
      request `i` seeing environment `envs[i]`. */
  datatype Trace = Trace(store: Store, effects: seq<Effect>)

  function Run(store: Store, reqs: seq<Request>, envs: seq<Environment>): (t: Trace)
    requires |reqs| == |envs|
    ensures store.Keys <= t.store.Keys
    ensures WellFormed(store) ==> WellFormed(t.store)
  {
    if |reqs| == 0 then Trace(store, [])
    else
      var before := Run(store, reqs[..|reqs| - 1], envs[..|envs| - 1]);
      var o := Handle(before.store, reqs[|reqs| - 1], envs[|envs| - 1]);
      Trace(o.store, before.effects + o.effects)
  }

  /** The code in the last call to the code-email sender for `email`, if
      any. It records the call, not a delivery: the code is stored before
      the sender is called. */
  function LastSent(effects: seq<Effect>, email: string): Option<string> {
    if |effects| == 0 then None
    else
      var e := effects[|effects| - 1];
      if e.SendAuthCodeEmail? && e.email == email then Some(e.code)
      else LastSent(effects[..|effects| - 1], email)
  }

  /** The store's entry for `email`, as an option. */
  function Entry(store: Store, email: string): Option<string> {
    if email in store then Some(store[email]) else None
  }

  /** The last code sent in `first + second` is the last one in `second`,
      or, if `second` sends none to the email, the last one in `first`. */
  lemma {:induction false} LastSentConcat(first: seq<Effect>, second: seq<Effect>, email: string)
    ensures LastSent(first + second, email) ==
            (if LastSent(second, email).Some? then LastSent(second, email)
             else LastSent(first, email))
    decreases |second|
  {
    var all := first + second;
    if |second| == 0 {
      assert all == first;
    } else {
      assert all[..|all| - 1] == first + second[..|second| - 1];
      LastSentConcat(first, second[..|second| - 1], email);
    }
  }

  /** One request: if it sends a code to the email, the entry becomes that
      code; otherwise the entry is unchanged. */
  lemma HandleEntry(store: Store, req: Request, env: Environment, email: string)
    ensures var o := Handle(store, req, env);
            Entry(o.store, email) ==
              (match LastSent(o.effects, email)
               case Some(code) => Some(code)
               case None => Entry(store, email))
  {
    var o := Handle(store, req, env);
    if req.SendCode? && req.userEmail == email && o.response.Success? {
      assert o.effects == [SendAuthCodeEmail(email, o.store[email])];
      assert o.effects[..0] == [];
    } else {
      assert forall e :: e in o.effects ==> !(e.SendAuthCodeEmail? && e.email == email);
      LastSentNone(o.effects, email);
    }
  }

  lemma {:induction false} LastSentNone(effects: seq<Effect>, email: string)
    requires forall e :: e in effects ==> !(e.SendAuthCodeEmail? && e.email == email)
    ensures LastSent(effects, email).None?
    decreases |effects|
  {
    if |effects| > 0 {
      LastSentNone(effects[..|effects| - 1], email);
    }
  }

  /** After any sequence of requests, each email's entry is the code last
      sent to it, or its entry before the sequence if none was sent: the
      store holds exactly the most recently delivered code, and no other. */
  lemma {:induction false} StoreHoldsLastSent(
    store: Store, reqs: seq<Request>, envs: seq<Environment>, email: string)
    requires |reqs| == |envs|
    ensures var t := Run(store, reqs, envs);
            Entry(t.store, email) ==
              (match LastSent(t.effects, email)
               case Some(code) => Some(code)
               case None => Entry(store, email))
  {
    if |reqs| > 0 {
      var before := Run(store, reqs[..|reqs| - 1], envs[..|envs| - 1]);
      StoreHoldsLastSent(store, reqs[..|reqs| - 1], envs[..|envs| - 1], email);
      var o := Handle(before.store, reqs[|reqs| - 1], envs[|envs| - 1]);
      HandleEntry(before.store, reqs[|reqs| - 1], envs[|envs| - 1], email);
      LastSentConcat(before.effects, o.effects, email);
    }
  }

  /** Starting from an empty store, a code verifies for an email exactly
      when it is the code most recently sent to that email. */
  lemma {:induction false} VerifiesIffLastSent(
    reqs: seq<Request>, envs: seq<Environment>, email: string, code: string)
    requires |reqs| == |envs|
    ensures var t := Run(map[], reqs, envs);
            VerifyEmailAuthCode(t.store, email, code).Success? <==>
              LastSent(t.effects, email) == Some(code)
  {
    StoreHoldsLastSent(map[], reqs, envs, email);
  }
}
