/**
  The OAuth profile registry (`packages/entertainment_curator/youtube_oauth.py`), a client of the
  authorization code flow of section 4.1 of RFC 6749.

  Token files, state files and other files are maps, and a state text is looked up as the path it is:
  the file system, a parameter, says which file that is.  Completing an authorization is split at its call
  to the token endpoint, so other calls may come in between.
*/
module OAuth {
  import opened Options
  import opened Text
  import Seqs

  const PROFILES := {"youtube_music", "youtube_learning"}
  const READONLY_SCOPE := "https://www.googleapis.com/auth/youtube.readonly"

  /** The two fields of a stored token that decide whether a profile is authorized. */
  datatype Token = Token(access: Option<string>, refresh: Option<string>)

  /** The token endpoint's answer, or an exception. A field is `None` when the answer leaves it out. */
  datatype Answer = Raised | Answer(access: Option<string>, refresh: Option<string>, scope: Option<string>)

  datatype Outcome =
    | AuthUrl | MissingConfig | UnknownProfile | ScopeError | ExchangeError
    | ErrorGiven | NoState | StateNotFound | ProfileMismatch | NoCode
    | AuthorizedOutcome(profile: string) | Revoked | NothingToRevoke

  // ----- files

  /**
    The file that a state text names: `states/<name>.json` or `<profile>.json` in the token directory, some
    other file, or none at all.
  */
  datatype Place = StateFile(name: string) | TokenFile(profile: string) | OtherFile(path: seq<string>) | Nowhere

  /**
    What a registry finds: its client, the file behind every state text, and the profile ids in other files.
    The file system is arbitrary, so `locate` may take any text with a slash to any file.
  */
  datatype Setup = Setup(hasClient: bool, locate: string -> Place, others: map<seq<string>, string>)

  /** All that is asked of a file system: a state text without a slash names a state file. */
  ghost predicate NamesStay(c: Setup) {
    forall s: string :: '/' !in s ==> c.locate(s) == StateFile(s)
  }

  /** `secrets.token_urlsafe` */
  predicate UrlSafe(s: string) {
    s != "" && forall c :: c in s ==>
      'a' <= c <= 'z' || 'A' <= c <= 'Z' || '0' <= c <= '9' || c == '-' || c == '_'
  }

  type Nonce = s: string | UrlSafe(s) witness "A"

  /** A completion waiting for the token endpoint: the file its state text named, and the profile found there. */
  datatype Call = Call(place: Place, profile: string)

  /** A Python value is truthy: present and not empty. */
  predicate Truthy(s: Option<string>) {
    s.Some? && s.value != ""
  }

  /** `_profile` */
  function Profile(id: string): Option<string> {
    if Strip(id) in PROFILES then Some(Strip(id)) else None
  }

  /** `_validate_scopes` on a scope text: its set of words is the one read-only scope. */
  predicate ValidScope(scope: string) {
    (set w | w in Words(scope)) == {READONLY_SCOPE}
  }

  predicate Accepted(a: Answer) {
    a.Answer? && (Truthy(a.scope) ==> ValidScope(a.scope.value))
  }

  predicate Authorized(tokens: map<string, Token>, profile: string) {
    profile in tokens && (Truthy(tokens[profile].refresh) || Truthy(tokens[profile].access))
  }

  /** The token to store: a refresh token already there is kept when the answer leaves the field out. */
  function Merged(tokens: map<string, Token>, profile: string, a: Answer): Token
    requires a.Answer?
  {
    if a.refresh.None? && profile in tokens && Truthy(tokens[profile].refresh)
    then Token(a.access, tokens[profile].refresh)
    else Token(a.access, a.refresh)
  }

  // ----- the registry

  class Registry {
    const setup: Setup
    var tokens: map<string, Token>
    var states: map<string, string>
    var others: map<seq<string>, string>

    function Model(calls: seq<Call>): World
      reads this
    {
      World(setup, tokens, states, others, calls)
    }

    constructor (setup: Setup)
      ensures Model([]) == Empty(setup)
    {
      this.setup, tokens, states, others := setup, map[], map[], setup.others;
    }

    /** `profile_status` */
    method ProfileStatus(profileId: string) returns (authorized: Option<bool>)
      ensures authorized == match Profile(profileId) case None => None case Some(p) => Some(Authorized(tokens, p))
      ensures authorized.Some? ==> var p := Strip(profileId);
        authorized.value <==> p in tokens && (Given(tokens[p].refresh) || Given(tokens[p].access))
    {
      hide Strip;
      var p := Profile(profileId);
      if p.None? {
        return None;
      }
      var token := if p.value in tokens then tokens[p.value] else Token(None, None);
      return Some(Truthy(token.refresh) || Truthy(token.access));
    }

    /** `start_authorization`; `nonce` is the random state it draws. */
    method StartAuthorization(profileId: string, nonce: Nonce, ghost calls: seq<Call>) returns (r: Outcome)
      modifies this
      ensures Model(calls) == Next(old(Model(calls)), Start(profileId, nonce))
      ensures r == if Profile(profileId).None? then UnknownProfile
                   else if !setup.hasClient then MissingConfig else AuthUrl
    {
      var p := Profile(profileId);
      if p.None? {
        return UnknownProfile;
      }
      if !setup.hasClient {
        return MissingConfig;
      }
      states := states[nonce := p.value];
      return AuthUrl;
    }

    /** `_read_state`: the profile named in the file that the state text names. */
    method ReadState(state: string) returns (profileId: Option<string>)
      ensures profileId == Named(Model([]), state)
    {
      var place := setup.locate(state);
      match place {
        case StateFile(name) => return if name in states then Some(states[name]) else None;
        case TokenFile(p) => return if p in tokens then Some(p) else None;
        case OtherFile(path) => return if path in others then Some(others[path]) else None;
        case Nowhere => return None;
      }
    }

    /** `complete_authorization` up to the token request. */
    method BeginCompletion(code: Option<string>, state: Option<string>, error: Option<string>, expected: Option<string>,
                           ghost calls: seq<Call>)
      returns (b: Begun)
      ensures b == Verdict(Model(calls), code, state, error, expected)
      ensures Explains(b, Model(calls), code, state, error, expected)
      ensures Model(calls + if b.Sent? then [b.call] else []) == Next(Model(calls), Begin(code, state, error, expected))
    {
      hide Strip, Explains;
      Seqs.EmptyUnit(calls);
      VerdictExplained(Model(calls), code, state, error, expected);
      if Truthy(error) {
        return Refused(ErrorGiven);
      }
      var name := if state.Some? then Strip(state.value) else "";
      if name == "" {
        return Refused(NoState);
      }
      var profileId := ReadState(name);
      if profileId.None? {
        return Refused(StateNotFound);
      }
      var p := Profile(profileId.value);
      if p.None? {
        return Refused(UnknownProfile);
      }
      if Truthy(expected) && expected.value != p.value {
        return Refused(ProfileMismatch);
      }
      if !setup.hasClient {
        return Refused(MissingConfig);
      }
      if code.None? || Strip(code.value) == "" {
        return Refused(NoCode);
      }
      return Sent(Call(setup.locate(name), p.value));
    }

    /** The rest of `complete_authorization`, with the endpoint's answer. */
    method FinishCompletion(call: Call, a: Answer, ghost calls: seq<Call>, ghost k: nat) returns (r: Outcome)
      requires k < |calls| && calls[k] == call
      modifies this
      ensures Model(Without(calls, k)) == Next(old(Model(calls)), Finish(k, a))
      ensures r == if a.Raised? then ExchangeError else if !Accepted(a) then ScopeError
                   else AuthorizedOutcome(call.profile)
    {
      hide ValidScope;
      if a.Raised? {
        return ExchangeError;
      }
      if Truthy(a.scope) && !ValidScope(a.scope.value) {
        return ScopeError;
      }
      var refresh := a.refresh;
      if refresh.None? && call.profile in tokens && Truthy(tokens[call.profile].refresh) {
        refresh := tokens[call.profile].refresh;
      }
      tokens := tokens[call.profile := Token(a.access, refresh)];
      match call.place {
        case StateFile(name) => states := states - {name};
        case TokenFile(p) => tokens := tokens - {p};
        case OtherFile(path) => others := others - {path};
        case Nowhere =>
      }
      return AuthorizedOutcome(call.profile);
    }

    /** `revoke_profile` */
    method RevokeProfile(profileId: string, ghost calls: seq<Call>) returns (r: Outcome)
      modifies this
      ensures Model(calls) == Next(old(Model(calls)), Revoke(profileId))
      ensures r == match Profile(profileId)
        case None => UnknownProfile
        case Some(p) => if p in old(tokens) then Revoked else NothingToRevoke
    {
      var p := Profile(profileId);
      if p.None? {
        return UnknownProfile;
      }
      var existed := p.value in tokens;
      tokens := tokens - {p.value};
      states := map st | st in states && states[st] != p.value :: states[st];
      return if existed then Revoked else NothingToRevoke;
    }
  }

  // ----- runs

  datatype World = World(setup: Setup, tokens: map<string, Token>, states: map<string, string>,
                         others: map<seq<string>, string>, calls: seq<Call>)

  function Empty(c: Setup): World {
    World(c, map[], map[], c.others, [])
  }

  datatype Event =
    | Start(profileId: string, nonce: Nonce)
    | Begin(code: Option<string>, state: Option<string>, error: Option<string>, expected: Option<string>)
    | Finish(call: nat, answer: Answer)
    | Revoke(profileId: string)

  /** The profile id in the file that a state text names: a state's, a token's or another one's. */
  function Named(w: World, state: string): Option<string> {
    match w.setup.locate(state)
    case StateFile(name) => if name in w.states then Some(w.states[name]) else None
    case TokenFile(p) => if p in w.tokens then Some(p) else None
    case OtherFile(path) => if path in w.others then Some(w.others[path]) else None
    case Nowhere => None
  }

  datatype Begun = Refused(why: Outcome) | Sent(call: Call)

  /** The checks of `complete_authorization` before the token request, in their order. */
  function Verdict(w: World, code: Option<string>, state: Option<string>, error: Option<string>,
                   expected: Option<string>): Begun
  {
    var name := if state.Some? then Strip(state.value) else "";
    if Truthy(error) then Refused(ErrorGiven)
    else if name == "" then Refused(NoState)
    else match Named(w, name)
      case None => Refused(StateNotFound)
      case Some(profileId) =>
        match Profile(profileId)
        case None => Refused(UnknownProfile)
        case Some(p) =>
          if Truthy(expected) && expected.value != p then Refused(ProfileMismatch)
          else if !w.setup.hasClient then Refused(MissingConfig)
          else if code.None? || Strip(code.value) == "" then Refused(NoCode)
          else Sent(Call(w.setup.locate(name), p))
  }

  /** Neither `None` nor empty. */
  predicate Given(s: Option<string>) {
    match s
    case None => false
    case Some(text) => |text| > 0
  }

  /** The profile that the file behind a state text is about. */
  ghost predicate IsAbout(w: World, state: Option<string>, profile: string) {
    && state.Some? && Strip(state.value) != ""
    && Named(w, Strip(state.value)).Some?
    && Strip(Named(w, Strip(state.value)).value) == profile
    && (profile == "youtube_music" || profile == "youtube_learning")
  }

  /**
    When a completion is refused, and for which reason, and when its token request is sent: the checks
    in the order error, state, file, profile, expected profile, client, code.
  */
  ghost predicate Explains(b: Begun, w: World, code: Option<string>, state: Option<string>, error: Option<string>,
                           expected: Option<string>)
  {
    var named := state.Some? && Strip(state.value) != "";
    var found := named && Named(w, Strip(state.value)).Some?;
    var known := exists p :: IsAbout(w, state, p);
    var wanted := forall p :: IsAbout(w, state, p) && Given(expected) ==> expected == Some(p);
    var coded := code.Some? && Strip(code.value) != "";
    match b
    case Refused(ErrorGiven) => Given(error)
    case Refused(NoState) => !Given(error) && !named
    case Refused(StateNotFound) => !Given(error) && named && !found
    case Refused(UnknownProfile) => !Given(error) && found && !known
    case Refused(ProfileMismatch) => !Given(error) && known && !wanted
    case Refused(MissingConfig) => !Given(error) && known && wanted && !w.setup.hasClient
    case Refused(NoCode) => !Given(error) && known && wanted && w.setup.hasClient && !coded
    case Sent(call) =>
      && !Given(error) && wanted && w.setup.hasClient && coded
      && IsAbout(w, state, call.profile) && call.place == w.setup.locate(Strip(state.value))
    case _ => false
  }

  lemma VerdictExplained(w: World, code: Option<string>, state: Option<string>, error: Option<string>,
                         expected: Option<string>)
    ensures Explains(Verdict(w, code, state, error, expected), w, code, state, error, expected)
  {
    hide Strip, Named;
    var name := if state.Some? then Strip(state.value) else "";
    if name != "" && Named(w, name).Some? && Profile(Named(w, name).value).Some? {
      assert IsAbout(w, state, Profile(Named(w, name).value).value);
    }
  }

  function Without(calls: seq<Call>, k: nat): seq<Call>
    requires k < |calls|
  {
    calls[..k] + calls[k + 1..]
  }

  /** Writing the answer's token and then deleting the file that the state text named. */
  function Completed(w: World, call: Call, a: Answer): World
    requires a.Answer?
  {
    var written := w.tokens[call.profile := Merged(w.tokens, call.profile, a)];
    match call.place
    case StateFile(name) => w.(tokens := written, states := w.states - {name})
    case TokenFile(p) => w.(tokens := written - {p})
    case OtherFile(path) => w.(tokens := written, others := w.others - {path})
    case Nowhere => w.(tokens := written)
  }

  /** One event; finishing a call that is not in flight is no event at all. */
  function Next(w: World, e: Event): World {
    match e
    case Start(profileId, nonce) =>
      if Profile(profileId).None? || !w.setup.hasClient then w
      else w.(states := w.states[nonce := Profile(profileId).value])
    case Begin(code, state, error, expected) =>
      var b := Verdict(w, code, state, error, expected);
      if b.Sent? then w.(calls := w.calls + [b.call]) else w
    case Finish(k, a) =>
      if k >= |w.calls| then w
      else if !Accepted(a) then w.(calls := Without(w.calls, k))
      else Completed(w, w.calls[k], a).(calls := Without(w.calls, k))
    case Revoke(profileId) =>
      match Profile(profileId)
      case None => w
      case Some(p) =>
        w.(tokens := w.tokens - {p}, states := map st | st in w.states && w.states[st] != p :: w.states[st])
  }

  function Run(c: Setup, es: seq<Event>): World {
    if es == [] then Empty(c) else Next(Run(c, es[..|es| - 1]), es[|es| - 1])
  }

  /** The world just before event `i`. */
  function At(c: Setup, es: seq<Event>, i: nat): World
    requires i <= |es|
  {
    Run(c, es[..i])
  }

  lemma AtStep(c: Setup, es: seq<Event>, i: nat)
    requires i < |es|
    ensures At(c, es, i + 1) == Next(At(c, es, i), es[i])
  {
    Seqs.TakeSucc(es, i);
  }

  // ----- what events do

  /** The event stores `state` for `profile`. */
  predicate Issues(w: World, e: Event, state: string, profile: string) {
    e.Start? && w.setup.hasClient && e.nonce == state && Profile(e.profileId) == Some(profile)
  }

  predicate Revokes(e: Event, profile: string) {
    e.Revoke? && Profile(e.profileId) == Some(profile)
  }

  /** The event stores the answer to a call, and its token. */
  predicate Answers(w: World, e: Event, call: Call) {
    e.Finish? && e.call < |w.calls| && Accepted(e.answer) && w.calls[e.call] == call
  }

  /** The event completes an authorization of `profile` by `state`. */
  predicate Consumes(w: World, e: Event, state: string, profile: string) {
    Answers(w, e, Call(StateFile(state), profile))
  }

  /** The event completes an authorization whose state text named the token file of `profile`. */
  predicate Discards(w: World, e: Event, profile: string) {
    Answers(w, e, Call(TokenFile(profile), profile))
  }

  /** The event leaves `profile` with a new token. */
  predicate Stores(w: World, e: Event, profile: string) {
    && e.Finish? && e.call < |w.calls| && Accepted(e.answer)
    && w.calls[e.call].profile == profile && !w.calls[e.call].place.TokenFile?
  }

  /** The event leaves `profile` without a token. */
  predicate Drops(w: World, e: Event, profile: string) {
    Revokes(e, profile) || Discards(w, e, profile)
  }

  /** The event takes `state` away from `profile`. */
  ghost predicate Ends(w: World, e: Event, state: string, profile: string) {
    || Revokes(e, profile)
    || (exists p :: Consumes(w, e, state, p))
    || (exists p :: p != profile && Issues(w, e, state, p))
  }

  ghost predicate Holds(w: World, state: string, profile: string) {
    state in w.states && w.states[state] == profile
  }

  lemma StoredStates(w: World, e: Event, state: string, profile: string)
    ensures Holds(Next(w, e), state, profile) <==>
      Issues(w, e, state, profile) || (Holds(w, state, profile) && !Ends(w, e, state, profile))
  {
    hide Strip, Accepted, Verdict, Merged;
    match e {
      case Start(profileId, nonce) =>
        if Profile(profileId).Some? && w.setup.hasClient && nonce == state {
          assert Issues(w, e, state, Profile(profileId).value);
        }
      case Begin(_, _, _, _) =>
      case Finish(k, a) =>
        if k < |w.calls| && Accepted(a) && w.calls[k].place == StateFile(state) {
          assert Consumes(w, e, state, w.calls[k].profile);
        }
      case Revoke(_) =>
    }
  }

  /** Before event `j`: `state` was issued for `profile`, and nothing took it away since. */
  ghost predicate Live(c: Setup, es: seq<Event>, j: nat, state: string, profile: string)
    requires j <= |es|
  {
    exists i :: LiveSince(c, es, i, j, state, profile)
  }

  ghost predicate LiveSince(c: Setup, es: seq<Event>, i: nat, j: nat, state: string, profile: string)
    requires j <= |es|
  {
    i < j && Issues(At(c, es, i), es[i], state, profile)
    && forall m :: i < m < j ==> !Ends(At(c, es, m), es[m], state, profile)
  }

  /** A state is on disk for a profile exactly when issued for it, and not consumed, revoked or reissued since. */
  lemma {:induction false} StateStoredExactlyWhileLive(c: Setup, es: seq<Event>, j: nat, state: string, profile: string)
    requires j <= |es|
    ensures Holds(At(c, es, j), state, profile) <==> Live(c, es, j, state, profile)
  {
    hide Run, Next, Issues, Ends;
    if j == 0 {
      NothingStored(c, es, state, profile);
    } else {
      StateStoredExactlyWhileLive(c, es, j - 1, state, profile);
      AtStep(c, es, j - 1);
      StoredStates(At(c, es, j - 1), es[j - 1], state, profile);
      LiveStep(c, es, j - 1, state, profile);
    }
  }

  lemma NothingStored(c: Setup, es: seq<Event>, state: string, profile: string)
    ensures !Holds(At(c, es, 0), state, profile) && !Live(c, es, 0, state, profile)
  {
  }

  lemma LiveStep(c: Setup, es: seq<Event>, j: nat, state: string, profile: string)
    requires j < |es|
    ensures Live(c, es, j + 1, state, profile) <==>
      || Issues(At(c, es, j), es[j], state, profile)
      || (Live(c, es, j, state, profile) && !Ends(At(c, es, j), es[j], state, profile))
  {
    hide Run, Issues, Ends;
    if Issues(At(c, es, j), es[j], state, profile) {
      assert LiveSince(c, es, j, j + 1, state, profile);
    } else {
      if Live(c, es, j, state, profile) && !Ends(At(c, es, j), es[j], state, profile) {
        var i :| LiveSince(c, es, i, j, state, profile);
        assert LiveSince(c, es, i, j + 1, state, profile);
      }
      if Live(c, es, j + 1, state, profile) {
        var i :| LiveSince(c, es, i, j + 1, state, profile);
        assert LiveSince(c, es, i, j, state, profile);
      }
    }
  }

  // ----- what is stored is normal

  /** A profile id as it is stored. */
  predicate IsProfile(p: string) {
    Profile(p) == Some(p)
  }

  /** States and tokens are stored for normal profile ids, and a token file is read for its own profile. */
  ghost predicate Normal(w: World) {
    && (forall st :: st in w.states ==> IsProfile(w.states[st]))
    && (forall p :: p in w.tokens ==> IsProfile(p))
    && (forall k :: 0 <= k < |w.calls| ==> NormalCall(w.calls[k]))
  }

  ghost predicate NormalCall(call: Call) {
    IsProfile(call.profile) && (call.place.TokenFile? ==> call.place.profile == call.profile)
  }

  lemma ProfileIsNormal(id: string)
    ensures Profile(id).Some? ==> IsProfile(Profile(id).value)
  {
    var a, b := StripParts(id);
    StrippedIsFixed(Strip(id));
  }

  lemma SentIsNormal(w: World, code: Option<string>, state: Option<string>, error: Option<string>,
                     expected: Option<string>)
    requires Normal(w)
    ensures var b := Verdict(w, code, state, error, expected); b.Sent? ==> NormalCall(b.call)
  {
    hide Strip, PROFILES;
    var name := if state.Some? then Strip(state.value) else "";
    if Named(w, name).Some? {
      ProfileIsNormal(Named(w, name).value);
    }
  }

  lemma NextIsNormal(w: World, e: Event)
    requires Normal(w)
    ensures Normal(Next(w, e))
  {
    hide Profile, IsProfile, Verdict, Accepted, Merged, Completed;
    match e {
      case Start(profileId, _) => ProfileIsNormal(profileId);
      case Begin(code, state, error, expected) => SentIsNormal(w, code, state, error, expected);
      case Finish(k, a) =>
        if k < |w.calls| {
          WithoutKeeps(w.calls, k);
          if Accepted(a) {
            AcceptedIsAnswer(a);
            CompletedIsNormal(w, w.calls[k], a);
          }
        }
      case Revoke(_) =>
    }
  }

  lemma AcceptedIsAnswer(a: Answer)
    requires Accepted(a)
    ensures a.Answer?
  {
  }

  lemma CompletedIsNormal(w: World, call: Call, a: Answer)
    requires Normal(w) && NormalCall(call) && a.Answer?
    ensures Normal(Completed(w, call, a)) && Completed(w, call, a).calls == w.calls
  {
    hide IsProfile, Merged;
  }

  lemma WithoutKeeps(calls: seq<Call>, k: nat)
    requires k < |calls|
    ensures |Without(calls, k)| == |calls| - 1
    ensures forall i :: 0 <= i < |calls| - 1 ==> Without(calls, k)[i] == calls[if i < k then i else i + 1]
  {
  }

  /** In every run the stored states name known profiles in their normal form. */
  lemma {:induction false} StoredProfilesAreNormal(c: Setup, es: seq<Event>, n: nat)
    requires n <= |es|
    ensures Normal(At(c, es, n))
  {
    hide Run, Normal, Next;
    if n == 0 {
      EmptyIsNormal(c, es);
    } else {
      StoredProfilesAreNormal(c, es, n - 1);
      AtStep(c, es, n - 1);
      NextIsNormal(At(c, es, n - 1), es[n - 1]);
    }
  }

  lemma EmptyIsNormal(c: Setup, es: seq<Event>)
    ensures Normal(At(c, es, 0))
  {
  }

  // ----- authorization

  /** Event `j` completes `profile` by a live state, and nothing takes the token away afterwards. */
  ghost predicate Grants(c: Setup, es: seq<Event>, n: nat, j: nat, state: string, profile: string)
    requires n <= |es|
  {
    && j < n && Consumes(At(c, es, j), es[j], state, profile) && Live(c, es, j, state, profile)
    && forall m :: j < m < n ==> !Drops(At(c, es, m), es[m], profile)
  }

  ghost predicate Granted(c: Setup, es: seq<Event>, n: nat, profile: string)
    requires n <= |es|
  {
    exists j: nat, state :: Grants(c, es, n, j, state, profile)
  }

  /** A completion grants its profile by a live state exactly when the state is still on disk as the answer arrives. */
  lemma CompletionGrantsExactly(c: Setup, es: seq<Event>, n: nat, j: nat, state: string, profile: string)
    requires j < |es| && n == j + 1 && Consumes(At(c, es, j), es[j], state, profile)
    ensures Grants(c, es, n, j, state, profile) <==> Holds(At(c, es, j), state, profile)
  {
    hide Run, Consumes, Drops, Holds, Live;
    StateStoredExactlyWhileLive(c, es, j, state, profile);
  }

  lemma StoredTokens(w: World, e: Event, profile: string)
    requires Normal(w)
    ensures profile in Next(w, e).tokens <==>
      Stores(w, e, profile) || (profile in w.tokens && !Drops(w, e, profile))
  {
    hide Strip, Accepted, Verdict, Merged;
    if e.Finish? && e.call < |w.calls| && Accepted(e.answer) {
      var call := w.calls[e.call];
      assert NormalCall(call);
      assert Answers(w, e, call);
    }
  }

  /** The call was sent for a state that is still on disk. */
  ghost predicate Fresh(w: World, call: Call) {
    call.place.StateFile? && Holds(w, call.place.name, call.profile)
  }

  /** An answer that stores a token finds its state still on disk, or its profile still with a token. */
  ghost predicate Backed(c: Setup, es: seq<Event>, j: nat, profile: string)
    requires j < |es|
  {
    var w := At(c, es, j);
    Stores(w, es[j], profile) ==> Fresh(w, w.calls[es[j].call]) || profile in w.tokens
  }

  ghost predicate AllBacked(c: Setup, es: seq<Event>, n: nat, profile: string)
    requires n <= |es|
  {
    forall j :: 0 <= j < n ==> Backed(c, es, j, profile)
  }

  /** Before event `n`, the profile has a token exactly when a live state granted it one. */
  ghost predicate TokenIsGranted(c: Setup, es: seq<Event>, n: nat, profile: string)
    requires n <= |es|
  {
    profile in At(c, es, n).tokens <==> Granted(c, es, n, profile)
  }

  lemma GrantedStep(c: Setup, es: seq<Event>, j: nat, n: nat, profile: string)
    requires j < |es| && n == j + 1
    ensures Granted(c, es, n, profile) <==>
      || (exists st :: Consumes(At(c, es, j), es[j], st, profile) && Live(c, es, j, st, profile))
      || (Granted(c, es, j, profile) && !Drops(At(c, es, j), es[j], profile))
  {
    hide Run, Consumes, Drops, Live;
    if st :| Consumes(At(c, es, j), es[j], st, profile) && Live(c, es, j, st, profile) {
      assert Grants(c, es, n, j, st, profile);
    }
    if Granted(c, es, j, profile) && !Drops(At(c, es, j), es[j], profile) {
      var k: nat, st :| Grants(c, es, j, k, st, profile);
      assert Grants(c, es, n, k, st, profile);
    }
    if Granted(c, es, n, profile) {
      var k: nat, st :| Grants(c, es, n, k, st, profile);
      if k < j {
        assert Grants(c, es, j, k, st, profile);
      }
    }
  }

  /** A token is stored for a fresh call exactly when a live state is consumed. */
  lemma FreshIsLive(c: Setup, es: seq<Event>, j: nat, profile: string)
    requires j < |es|
    ensures var w := At(c, es, j);
      Stores(w, es[j], profile) && Fresh(w, w.calls[es[j].call])
      <==> exists st :: Consumes(w, es[j], st, profile) && Live(c, es, j, st, profile)
  {
    hide Run, Live, Accepted;
    var w, e := At(c, es, j), es[j];
    forall st ensures Holds(w, st, profile) <==> Live(c, es, j, st, profile) {
      StateStoredExactlyWhileLive(c, es, j, st, profile);
    }
    if Stores(w, e, profile) && Fresh(w, w.calls[e.call]) {
      assert Consumes(w, e, w.calls[e.call].place.name, profile);
    }
  }

  lemma StoresIsNoDrop(w: World, e: Event, profile: string)
    ensures !(Stores(w, e, profile) && Drops(w, e, profile))
  {
  }

  /** One event keeps "has a token exactly when granted" if and only if it is backed. */
  lemma GrantedStepExactly(c: Setup, es: seq<Event>, j: nat, n: nat, profile: string)
    requires j < |es| && n == j + 1 && TokenIsGranted(c, es, j, profile)
    ensures TokenIsGranted(c, es, n, profile) <==> Backed(c, es, j, profile)
  {
    hide Run, Next, Consumes, Drops, Live, Granted, Normal, Fresh;
    AtStep(c, es, j);
    StoredProfilesAreNormal(c, es, j);
    StoredTokens(At(c, es, j), es[j], profile);
    GrantedStep(c, es, j, n, profile);
    FreshIsLive(c, es, j, profile);
    StoresIsNoDrop(At(c, es, j), es[j], profile);
  }

  lemma NotBoth(w: World, e: Event, state: string, profile: string)
    ensures !(Consumes(w, e, state, profile) && Drops(w, e, profile))
    ensures forall p, q :: !(Consumes(w, e, state, p) && Issues(w, e, state, q))
  {
  }

  lemma NoTokens(c: Setup, es: seq<Event>, profile: string)
    ensures TokenIsGranted(c, es, 0, profile)
  {
  }

  lemma {:induction false} TokensAreGranted(c: Setup, es: seq<Event>, n: nat, profile: string)
    requires n <= |es| && AllBacked(c, es, n, profile)
    ensures TokenIsGranted(c, es, n, profile)
  {
    hide Run, TokenIsGranted, Backed;
    if n == 0 {
      NoTokens(c, es, profile);
    } else {
      TokensAreGranted(c, es, n - 1, profile);
      assert Backed(c, es, n - 1, profile);
      GrantedStepExactly(c, es, n - 1, n, profile);
    }
  }

  /**
    All along a run a profile has a token exactly when a live state granted it one, if and only if every
    answer for it finds its state still on disk or the profile still with a token.
  */
  lemma TokensAreGrantedExactly(c: Setup, es: seq<Event>, profile: string)
    ensures (forall n :: 0 <= n <= |es| ==> TokenIsGranted(c, es, n, profile)) <==> AllBacked(c, es, |es|, profile)
  {
    hide Run, TokenIsGranted, Backed;
    if AllBacked(c, es, |es|, profile) {
      forall n | 0 <= n <= |es| ensures TokenIsGranted(c, es, n, profile) {
        TokensAreGranted(c, es, n, profile);
      }
    }
    if forall n :: 0 <= n <= |es| ==> TokenIsGranted(c, es, n, profile) {
      forall j | 0 <= j < |es| ensures Backed(c, es, j, profile) {
        var n := j + 1;
        assert TokenIsGranted(c, es, n, profile);
        GrantedStepExactly(c, es, j, n, profile);
      }
    }
  }

  /**
    A profile reads "authorized" only if a state issued for it after its last revoke was consumed
    by a completion, provided that every answer for it was backed.
  */
  lemma AuthorizedOnlyByFreshState(c: Setup, es: seq<Event>, profile: string) returns (i: nat, j: nat, state: string)
    requires AllBacked(c, es, |es|, profile) && Authorized(Run(c, es).tokens, profile)
    ensures i < j < |es|
    ensures Issues(At(c, es, i), es[i], state, profile) && Consumes(At(c, es, j), es[j], state, profile)
    ensures forall m :: i < m < |es| ==> !Revokes(es[m], profile)
  {
    hide Run, Issues, Consumes, Revokes, Backed, Discards;
    Seqs.TakeAll(es);
    TokensAreGranted(c, es, |es|, profile);
    j, state :| Grants(c, es, |es|, j, state, profile);
    i :| LiveSince(c, es, i, j, state, profile);
    forall m | i < m < |es| ensures !Revokes(es[m], profile) {
      if m < j {
        assert !Ends(At(c, es, m), es[m], state, profile);
      } else if m == j {
        NotBoth(At(c, es, j), es[j], state, profile);
      } else {
        assert !Drops(At(c, es, m), es[m], profile);
      }
    }
  }

  /**
    A state consumed once is found on disk by a later completion exactly when it was issued again in between:
    in every run, a second completion by it is a fresh one if and only if there was such a reissue.
  */
  lemma StateReusedExactly(c: Setup, es: seq<Event>, j: nat, k: nat, state: string, p: string, q: string)
    requires j < k < |es|
    requires Consumes(At(c, es, j), es[j], state, p)
    ensures Holds(At(c, es, k), state, q) <==> exists i :: j < i && LiveSince(c, es, i, k, state, q)
  {
    hide Run, Issues, Consumes, Revokes, Holds;
    StateStoredExactlyWhileLive(c, es, k, state, q);
    if Live(c, es, k, state, q) {
      assert Ends(At(c, es, j), es[j], state, q);
      var i: nat :| LiveSince(c, es, i, k, state, q);
      NotBoth(At(c, es, j), es[j], state, q);
      assert j < i;
    }
  }

  /** The answer finds its state still on disk. */
  ghost predicate GuardedAt(c: Setup, es: seq<Event>, j: nat)
    requires j < |es|
  {
    forall st, p :: Consumes(At(c, es, j), es[j], st, p) ==> Holds(At(c, es, j), st, p)
  }

  /** Atomic completions are guarded: a token request answered before anything else happens finds its state. */
  lemma AtomicCompletionIsGuarded(c: Setup, es: seq<Event>, j: nat)
    requires 0 < j < |es| && es[j - 1].Begin?
    requires es[j].Finish? && es[j].call == |At(c, es, j - 1).calls|
    ensures GuardedAt(c, es, j)
  {
    hide Run, Strip, Accepted, Profile;
    StoredProfilesAreNormal(c, es, j - 1);
    AtStep(c, es, j - 1);
  }

  /** A run in which every completion is atomic: its answer arrives right after its request. */
  ghost predicate AtomicCompletions(c: Setup, es: seq<Event>) {
    forall j :: 0 <= j < |es| && es[j].Finish? ==>
      j > 0 && es[j - 1].Begin? && es[j].call == |At(c, es, j - 1).calls|
  }

  /** With atomic methods every completion by a state finds it still on disk. */
  lemma AtomicRunsAreGuarded(c: Setup, es: seq<Event>)
    requires AtomicCompletions(c, es)
    ensures forall j :: 0 <= j < |es| ==> GuardedAt(c, es, j)
  {
    hide Run;
    forall j | 0 <= j < |es| ensures GuardedAt(c, es, j) {
      if es[j].Finish? {
        AtomicCompletionIsGuarded(c, es, j);
      }
    }
  }

  /** With atomic methods a state authorizes at most once: a second completion by it needs a second issue. */
  lemma StateAuthorizesOnce(c: Setup, es: seq<Event>, j: nat, k: nat, state: string, p: string, q: string)
    requires AtomicCompletions(c, es) && j < k < |es|
    requires Consumes(At(c, es, j), es[j], state, p) && Consumes(At(c, es, k), es[k], state, q)
    ensures exists i :: j < i < k && Issues(At(c, es, i), es[i], state, q)
  {
    hide Run, Issues, Consumes, Revokes, Holds;
    AtomicRunsAreGuarded(c, es);
    assert GuardedAt(c, es, k);
    StateReusedExactly(c, es, j, k, state, p, q);
    var i: nat :| j < i && LiveSince(c, es, i, k, state, q);
    assert Issues(At(c, es, i), es[i], state, q);
  }

  /** No other file that a state text could name holds the profile's id. */
  ghost predicate NoOtherNames(c: Setup, profile: string) {
    forall path :: path in c.others ==> Profile(c.others[path]) != Some(profile)
  }

  /** The call was sent for the registry's own file. */
  predicate OwnFile(call: Call) {
    call.place.StateFile? || call.place.TokenFile?
  }

  /** The other files are those there were, and calls for the profile were sent for the registry's own files. */
  ghost predicate OwnCalls(w: World, profile: string) {
    && (forall path :: path in w.others ==> path in w.setup.others && w.others[path] == w.setup.others[path])
    && forall k :: 0 <= k < |w.calls| && w.calls[k].profile == profile ==> OwnFile(w.calls[k])
  }

  lemma OwnCallsStep(w: World, e: Event, profile: string)
    requires NoOtherNames(w.setup, profile) && OwnCalls(w, profile)
    ensures OwnCalls(Next(w, e), profile) && Next(w, e).setup == w.setup
  {
    hide Profile, Accepted, Verdict, Merged, OwnFile, NoOtherNames;
    match e {
      case Start(_, _) =>
      case Begin(code, state, error, expected) => SentIsOwn(w, code, state, error, expected, profile);
      case Finish(k, a) =>
        if k < |w.calls| {
          WithoutKeeps(w.calls, k);
        }
      case Revoke(_) =>
    }
  }

  lemma SentIsOwn(w: World, code: Option<string>, state: Option<string>, error: Option<string>,
                  expected: Option<string>, profile: string)
    requires NoOtherNames(w.setup, profile) && OwnCalls(w, profile)
    ensures var b := Verdict(w, code, state, error, expected);
      b.Sent? && b.call.profile == profile ==> OwnFile(b.call)
  {
    hide Strip, Profile;
  }

  lemma {:induction false} OwnCallsHold(c: Setup, es: seq<Event>, n: nat, profile: string)
    requires NoOtherNames(c, profile) && n <= |es|
    ensures OwnCalls(At(c, es, n), profile) && At(c, es, n).setup == c
  {
    hide Run, Next, NoOtherNames;
    if n == 0 {
      NothingSent(c, es, profile);
    } else {
      OwnCallsHold(c, es, n - 1, profile);
      AtStep(c, es, n - 1);
      OwnCallsStep(At(c, es, n - 1), es[n - 1], profile);
    }
  }

  lemma NothingSent(c: Setup, es: seq<Event>, profile: string)
    ensures OwnCalls(At(c, es, 0), profile) && At(c, es, 0).setup == c
  {
  }

  /**
    With atomic methods every answer is backed, so the profile has a token exactly when a live state granted
    it one, provided that no other file holds its id or that state texts have no slash.
  */
  lemma AtomicRunsAreBacked(c: Setup, es: seq<Event>, profile: string)
    requires AtomicCompletions(c, es)
    requires NoOtherNames(c, profile) || (NamesStay(c) && NamesOnly(es, |es|))
    ensures AllBacked(c, es, |es|, profile)
  {
    hide Run, NamesStay, NoOtherNames, Accepted;
    AtomicRunsAreGuarded(c, es);
    forall j | 0 <= j < |es| ensures Backed(c, es, j, profile) {
      var w, e := At(c, es, j), es[j];
      if Stores(w, e, profile) {
        if NoOtherNames(c, profile) {
          OwnCallsHold(c, es, j, profile);
        } else {
          StateCallsHold(c, es, j);
        }
        assert GuardedAt(c, es, j);
        assert Consumes(w, e, w.calls[e.call].place.name, profile);
      }
    }
  }

  // ----- a revoke while the token request is on its way

  lemma StartStores(w: World, profile: string, state: Nonce)
    requires w.setup.hasClient && IsProfile(profile)
    ensures Next(w, Start(profile, state)) == w.(states := w.states[state := profile])
  {
    hide Strip;
  }

  lemma BeginCalls(w: World, profile: string, state: Nonce, code: string)
    requires w.setup.hasClient && NamesStay(w.setup) && IsProfile(profile)
    requires state in w.states && w.states[state] == profile && Strip(code) != ""
    ensures Next(w, Begin(Some(code), Some(state), None, None))
      == w.(calls := w.calls + [Call(StateFile(state), profile)])
  {
    hide Strip, Profile;
    NonceIsName(w.setup, state);
  }

  lemma RevokeClears(c: Setup, profile: string, state: string, call: Call)
    requires IsProfile(profile)
    ensures Next(Empty(c).(states := map[state := profile], calls := [call]), Revoke(profile))
      == Empty(c).(calls := [call])
  {
    hide Strip;
  }

  /** The instance: revoking while the token request is on its way is undone by its answer, which is not backed. */
  lemma RevokeDuringExchangeIsLost(c: Setup, p: string, state: Nonce, code: string, token: string)
    returns (es: seq<Event>)
    requires c.hasClient && NamesStay(c) && IsProfile(p) && Strip(code) != "" && token != ""
    ensures |es| == 4 && Revokes(es[2], p) && es[3].Finish?
    ensures Authorized(Run(c, es).tokens, p) && !Backed(c, es, 3, p)
  {
    hide Strip, Profile, Run, Next, NamesStay;
    var call := Call(StateFile(state), p);
    es := [Start(p, state), Begin(Some(code), Some(state), None, None), Revoke(p),
           Finish(0, Answer(Some(token), None, None))];
    AtStep(c, es, 0);
    AtStep(c, es, 1);
    AtStep(c, es, 2);
    AtStep(c, es, 3);
    EmptyWorld(c, es);
    var w0 := Empty(c);
    StartStores(w0, p, state);
    BeginCalls(w0.(states := map[state := p]), p, state, code);
    assert w0.states[state := p] == map[state := p];
    assert At(c, es, 1) == w0.(states := map[state := p]);
    assert [] + [call] == [call];
    assert At(c, es, 2) == w0.(states := map[state := p], calls := [call]);
    RevokeClears(c, p, state, call);
    var w3 := w0.(calls := [call]);
    FinishAuthorizes(w3, token);
    assert At(c, es, 3) == w3;
    assert Stores(w3, es[3], p) && !Holds(w3, state, p);
    Seqs.TakeAll(es);
  }

  lemma EmptyWorld(c: Setup, es: seq<Event>)
    ensures At(c, es, 0) == Empty(c)
  {
  }

  lemma FinishStores(w: World, call: Call, rest: seq<Call>, token: Token)
    requires call.place.StateFile? && w.calls == [call] + rest
    requires call.profile !in w.tokens || w.tokens[call.profile].refresh.None?
    ensures Next(w, Finish(0, Answer(token.access, token.refresh, None)))
      == w.(tokens := w.tokens[call.profile := token], states := w.states - {call.place.name}, calls := rest)
  {
    assert w.calls[..0] + w.calls[1..] == rest;
  }

  /**
    Without atomicity a state can authorize twice: two requests sent for it before either is answered both
    store their token, although it was issued once. The second answer is backed by the first one's token.
  */
  lemma SharedStateAuthorizesTwice(c: Setup, p: string, state: Nonce, code: string, token: string)
    returns (es: seq<Event>)
    requires c.hasClient && NamesStay(c) && IsProfile(p) && Strip(code) != ""
    ensures |es| == 5 && Consumes(At(c, es, 3), es[3], state, p) && Consumes(At(c, es, 4), es[4], state, p)
    ensures forall i, q :: 0 < i < 5 ==> !Issues(At(c, es, i), es[i], state, q)
    ensures AllBacked(c, es, 5, p) && !GuardedAt(c, es, 4)
  {
    hide Strip, Profile, Run, Next, NamesStay;
    var call := Call(StateFile(state), p);
    var begin, finish := Begin(Some(code), Some(state), None, None), Finish(0, Answer(Some(token), None, None));
    es := [Start(p, state), begin, begin, finish, finish];
    AtStep(c, es, 0);
    AtStep(c, es, 1);
    AtStep(c, es, 2);
    AtStep(c, es, 3);
    EmptyWorld(c, es);
    var w0 := Empty(c);
    StartStores(w0, p, state);
    assert w0.states[state := p] == map[state := p];
    var w1 := w0.(states := map[state := p]);
    assert At(c, es, 1) == w1;
    BeginCalls(w1, p, state, code);
    assert [] + [call] == [call];
    var w2 := w1.(calls := [call]);
    assert At(c, es, 2) == w2;
    BeginCalls(w2, p, state, code);
    var w3 := w1.(calls := [call] + [call]);
    assert At(c, es, 3) == w3;
    FinishStores(w3, call, [call], Token(Some(token), None));
    var w4 := At(c, es, 4);
    assert w4 == w3.(tokens := map[p := Token(Some(token), None)], states := map[], calls := [call]);
    assert Consumes(w3, es[3], state, p) && Holds(w3, state, p);
    assert Consumes(w4, es[4], state, p) && !Holds(w4, state, p) && p in w4.tokens;
  }

  lemma FinishAuthorizes(w: World, token: string)
    requires |w.calls| == 1 && w.calls[0].place.StateFile? && token != ""
    ensures Authorized(Next(w, Finish(0, Answer(Some(token), None, None))).tokens, w.calls[0].profile)
  {
  }

  // ----- refresh tokens

  ghost predicate HasRefresh(w: World, profile: string, refresh: string) {
    profile in w.tokens && w.tokens[profile].refresh == Some(refresh)
  }

  /**
    The event takes neither the token nor its refresh field: no revoke, no completion whose state text named the
    token file, and no completion whose answer has another refresh token (an empty one counts).
  */
  ghost predicate KeepsRefresh(w: World, e: Event, profile: string, refresh: string) {
    && !Drops(w, e, profile)
    && (Stores(w, e, profile) ==> e.answer.refresh.None? || e.answer.refresh == Some(refresh))
  }

  lemma RefreshStep(w: World, e: Event, profile: string, refresh: string)
    requires Normal(w) && HasRefresh(w, profile, refresh) && refresh != ""
    ensures HasRefresh(Next(w, e), profile, refresh) <==> KeepsRefresh(w, e, profile, refresh)
  {
    hide Strip, Accepted, Verdict;
    if e.Finish? && e.call < |w.calls| && Accepted(e.answer) {
      var call := w.calls[e.call];
      assert NormalCall(call);
      assert Answers(w, e, call);
    }
  }

  /**
    A stored refresh token lasts from event `i` to event `j` if and only if no event in between takes it:
    re-authorizations whose answer omits the field keep it.
  */
  lemma RefreshTokenSurvives(c: Setup, es: seq<Event>, i: nat, j: nat, profile: string, refresh: string)
    requires i <= j <= |es| && refresh != "" && HasRefresh(At(c, es, i), profile, refresh)
    ensures (forall m :: i <= m <= j ==> HasRefresh(At(c, es, m), profile, refresh))
      <==> forall m :: i <= m < j ==> KeepsRefresh(At(c, es, m), es[m], profile, refresh)
  {
    hide Run, Next, KeepsRefresh, HasRefresh, Normal;
    if forall m :: i <= m < j ==> KeepsRefresh(At(c, es, m), es[m], profile, refresh) {
      forall m | i <= m <= j ensures HasRefresh(At(c, es, m), profile, refresh) {
        RefreshLasts(c, es, i, m, profile, refresh);
      }
    }
    if forall m :: i <= m <= j ==> HasRefresh(At(c, es, m), profile, refresh) {
      forall m | i <= m < j ensures KeepsRefresh(At(c, es, m), es[m], profile, refresh) {
        var n := m + 1;
        assert HasRefresh(At(c, es, n), profile, refresh);
        AtStep(c, es, m);
        StoredProfilesAreNormal(c, es, m);
        RefreshStep(At(c, es, m), es[m], profile, refresh);
      }
    }
  }

  lemma {:induction false} RefreshLasts(c: Setup, es: seq<Event>, i: nat, j: nat, profile: string, refresh: string)
    requires i <= j <= |es| && refresh != "" && HasRefresh(At(c, es, i), profile, refresh)
    requires forall m :: i <= m < j ==> KeepsRefresh(At(c, es, m), es[m], profile, refresh)
    ensures HasRefresh(At(c, es, j), profile, refresh)
    decreases j
  {
    hide Run, Next, KeepsRefresh, HasRefresh, Normal;
    if i < j {
      RefreshLasts(c, es, i, j - 1, profile, refresh);
      AtStep(c, es, j - 1);
      StoredProfilesAreNormal(c, es, j - 1);
      RefreshStep(At(c, es, j - 1), es[j - 1], profile, refresh);
    }
  }

  // ----- state texts that are no names

  lemma NonceIsName(c: Setup, nonce: Nonce)
    requires NamesStay(c)
    ensures Strip(nonce) == nonce && c.locate(nonce) == StateFile(nonce)
  {
    assert nonce[0] in nonce && nonce[|nonce| - 1] in nonce;
    StrippedIsFixed(nonce);
  }

  /** The state texts of the first `n` events have no slash. */
  ghost predicate NamesOnly(es: seq<Event>, n: nat) {
    n <= |es| && forall k :: 0 <= k < n && es[k].Begin? && es[k].state.Some? ==> '/' !in es[k].state.value
  }

  ghost predicate StateCalls(w: World) {
    forall k :: 0 <= k < |w.calls| ==> w.calls[k].place.StateFile?
  }

  lemma StateCallsStep(w: World, e: Event)
    requires NamesStay(w.setup) && StateCalls(w) && (e.Begin? && e.state.Some? ==> '/' !in e.state.value)
    ensures StateCalls(Next(w, e)) && Next(w, e).setup == w.setup
  {
    hide Profile, Accepted, Strip;
    if e.Begin? && e.state.Some? {
      StripKeepsMembers(e.state.value);
      assert w.setup.locate(Strip(e.state.value)) == StateFile(Strip(e.state.value));
    }
    if e.Finish? && e.call < |w.calls| {
      WithoutKeeps(w.calls, e.call);
    }
  }

  lemma {:induction false} StateCallsHold(c: Setup, es: seq<Event>, n: nat)
    requires NamesStay(c) && NamesOnly(es, n)
    ensures StateCalls(At(c, es, n)) && At(c, es, n).setup == c
  {
    hide Run, Next, NamesStay;
    if n == 0 {
      NoCalls(c, es);
    } else {
      StateCallsHold(c, es, n - 1);
      AtStep(c, es, n - 1);
      StateCallsStep(At(c, es, n - 1), es[n - 1]);
    }
  }

  lemma NoCalls(c: Setup, es: seq<Event>)
    ensures StateCalls(At(c, es, 0)) && At(c, es, 0).setup == c
  {
  }

  /** As long as state texts have no slash, no completion takes a token away: only revokes do. */
  lemma NamesNeverDiscard(c: Setup, es: seq<Event>, n: nat, profile: string)
    requires NamesStay(c) && n < |es| && NamesOnly(es, n)
    ensures !Discards(At(c, es, n), es[n], profile)
  {
    hide Run, NamesStay;
    StateCallsHold(c, es, n);
  }

  /** The two events of a completion by a state text. */
  function BeginBy(state: string, code: string): Event {
    Begin(Some(code), Some(state), None, None)
  }

  /**
    Where a refresh token is lost: any state text that names the token file of a profile with a token is
    accepted, and its completion deletes the token that it has just written.
  */
  lemma TokenFileAsState(w: World, p: string, state: string, code: string, access: Option<string>)
    requires w.setup.hasClient && IsProfile(p) && p in w.tokens && Strip(code) != ""
    requires Strip(state) != "" && w.setup.locate(Strip(state)) == TokenFile(p)
    ensures var begun := Next(w, BeginBy(state, code));
      && begun == w.(calls := w.calls + [Call(TokenFile(p), p)])
      && Discards(begun, Finish(|w.calls|, Answer(access, None, None)), p)
      && p !in Next(begun, Finish(|w.calls|, Answer(access, None, None))).tokens
  {
    hide Strip, Profile;
  }

  /** Where a token is granted without a state: any state text that names another file with the profile's id. */
  lemma OtherFileAsState(w: World, p: string, path: seq<string>, state: string, code: string, token: string)
    requires w.setup.hasClient && Strip(code) != "" && token != ""
    requires Strip(state) != "" && w.setup.locate(Strip(state)) == OtherFile(path)
    requires path in w.others && Profile(w.others[path]) == Some(p)
    ensures var begun := Next(w, BeginBy(state, code));
      Authorized(Next(begun, Finish(|w.calls|, Answer(Some(token), None, None))).tokens, p)
  {
    hide Strip, Profile;
  }

  // ----- which profile a completion is for

  /** Event `i` sent the `k`-th call that is in flight before event `n`. */
  ghost function Origins(c: Setup, es: seq<Event>, n: nat): (r: seq<nat>)
    requires n <= |es|
    ensures |r| == |At(c, es, n).calls|
  {
    if n == 0 then NoOrigins(c, es); []
    else
      AtStep(c, es, n - 1);
      var w, e := At(c, es, n - 1), es[n - 1];
      var before := Origins(c, es, n - 1);
      if |At(c, es, n).calls| > |w.calls| then before + [n - 1]
      else if e.Finish? && e.call < |w.calls| then before[..e.call] + before[e.call + 1..]
      else before
  }

  lemma NoOrigins(c: Setup, es: seq<Event>)
    ensures At(c, es, 0).calls == []
  {
  }

  /** The call was sent by this request: for the profile it expected, if it expected one, and with its state text. */
  ghost predicate SentBy(c: Setup, call: Call, e: Event) {
    && e.Begin? && !Given(e.error) && e.code.Some? && e.state.Some?
    && (Given(e.expected) ==> e.expected == Some(call.profile))
    && call.place == c.locate(Strip(e.state.value))
  }

  lemma BeginSends(w: World, e: Event)
    requires e.Begin?
    ensures var t := Next(w, e);
      t == w || (t == w.(calls := t.calls) && |t.calls| == |w.calls| + 1 && t.calls[..|w.calls|] == w.calls
                 && SentBy(w.setup, t.calls[|w.calls|], e))
  {
    hide Strip, Verdict;
    VerdictExplained(w, e.code, e.state, e.error, e.expected);
    Sends(w, e);
  }

  lemma Sends(w: World, e: Event)
    requires e.Begin?
    requires Explains(Verdict(w, e.code, e.state, e.error, e.expected), w, e.code, e.state, e.error, e.expected)
    ensures var b := Verdict(w, e.code, e.state, e.error, e.expected); b.Sent? ==> SentBy(w.setup, b.call, e)
  {
    hide Strip, Verdict, Named;
  }

  lemma OtherEventsSend(w: World, e: Event)
    requires !e.Begin?
    ensures Next(w, e).setup == w.setup
    ensures Next(w, e).calls == if e.Finish? && e.call < |w.calls| then Without(w.calls, e.call) else w.calls
  {
    hide Profile, Accepted, Merged;
  }

  /** In every run each call in flight was sent by the request it comes from. */
  lemma {:induction false} CallsHaveOrigins(c: Setup, es: seq<Event>, n: nat)
    requires n <= |es|
    ensures At(c, es, n).setup == c
    ensures forall k :: 0 <= k < |At(c, es, n).calls| ==>
      Origins(c, es, n)[k] < n && SentBy(c, At(c, es, n).calls[k], es[Origins(c, es, n)[k]])
  {
    hide Run, Next, SentBy;
    if n == 0 {
      NoOrigins(c, es);
      StartsEmpty(c, es);
    } else {
      var w, e := At(c, es, n - 1), es[n - 1];
      CallsHaveOrigins(c, es, n - 1);
      AtStep(c, es, n - 1);
      if e.Begin? {
        BeginSends(w, e);
      } else {
        OtherEventsSend(w, e);
        if e.Finish? && e.call < |w.calls| {
          WithoutKeeps(w.calls, e.call);
        }
      }
    }
  }

  lemma StartsEmpty(c: Setup, es: seq<Event>)
    ensures At(c, es, 0) == Empty(c)
  {
  }

  /**
    Over all runs, the answer to a request that expected a profile stores a token for that profile or none:
    every stored token goes back to a request that expected its profile or did not say.
  */
  lemma TokenIsForExpectedProfile(c: Setup, es: seq<Event>, j: nat, profile: string) returns (i: nat)
    requires j < |es| && Stores(At(c, es, j), es[j], profile)
    ensures i < j && i == Origins(c, es, j)[es[j].call] && es[i].Begin?
    ensures Given(es[i].expected) ==> es[i].expected == Some(profile)
  {
    hide Run, Next;
    CallsHaveOrigins(c, es, j);
    i := Origins(c, es, j)[es[j].call];
    assert SentBy(c, At(c, es, j).calls[es[j].call], es[i]);
  }

  /** For example, a state issued for one profile does not complete the other one. */
  lemma MismatchExample(w: World, code: string, state: Nonce)
    requires NamesStay(w.setup) && w.setup.hasClient && Strip(code) != ""
    requires state in w.states && w.states[state] == "youtube_learning"
    ensures Verdict(w, Some(code), Some(state), None, Some("youtube_music")) == Refused(ProfileMismatch)
    ensures Verdict(w, Some(code), Some(state), None, Some("youtube_learning"))
      == Sent(Call(StateFile(state), "youtube_learning"))
  {
    NonceIsName(w.setup, state);
    StrippedIsFixed("youtube_learning");
    hide Strip;
    assert Profile("youtube_learning") == Some("youtube_learning");
  }

  // ----- what a stored token holds

  /** The token has the answer's access token, and its refresh token if the answer gives one. */
  ghost predicate TakenFrom(t: Token, a: Answer) {
    a.Answer? && t.access == a.access && (a.refresh.Some? ==> t.refresh == a.refresh)
  }

  lemma TokenStep(w: World, e: Event, profile: string)
    requires Normal(w) && profile in Next(w, e).tokens
    ensures Stores(w, e, profile) ==> TakenFrom(Next(w, e).tokens[profile], e.answer)
    ensures !Stores(w, e, profile) ==> profile in w.tokens && Next(w, e).tokens[profile] == w.tokens[profile]
  {
    hide Strip, Verdict, Accepted;
    if e.Finish? && e.call < |w.calls| && Accepted(e.answer) {
      AcceptedAnswers(e.answer);
      assert NormalCall(w.calls[e.call]);
    }
  }

  lemma AcceptedAnswers(a: Answer)
    requires Accepted(a)
    ensures a.Answer?
  {
  }

  /** In every run a stored token is the one of the last answer that stored one for its profile. */
  lemma {:induction false} TokenIsFromLastAnswer(c: Setup, es: seq<Event>, n: nat, profile: string) returns (j: nat)
    requires n <= |es| && profile in At(c, es, n).tokens
    ensures j < n && Stores(At(c, es, j), es[j], profile)
    ensures TakenFrom(At(c, es, n).tokens[profile], es[j].answer)
    ensures forall k :: j < k < n ==> !Stores(At(c, es, k), es[k], profile)
  {
    hide Next, Stores, TakenFrom, Normal;
    if n == 0 {
      StartsEmpty(c, es);
      assert false;
    } else {
      AtStep(c, es, n - 1);
      StoredProfilesAreNormal(c, es, n - 1);
      TokenStep(At(c, es, n - 1), es[n - 1], profile);
      if Stores(At(c, es, n - 1), es[n - 1], profile) {
        j := n - 1;
      } else {
        j := TokenIsFromLastAnswer(c, es, n - 1, profile);
      }
    }
  }

  lemma AuthorizedExactly(tokens: map<string, Token>, profile: string)
    ensures Authorized(tokens, profile) <==>
      profile in tokens && (Given(tokens[profile].refresh) || Given(tokens[profile].access))
  {
  }

  // ----- scopes

  lemma OneWord(words: seq<string>, word: string)
    ensures (set w | w in words) == {word} <==> words != [] && forall i :: 0 <= i < |words| ==> words[i] == word
  {
    var all := set w | w in words;
    if all == {word} {
      assert word in all;
      forall i | 0 <= i < |words| ensures words[i] == word {
        assert words[i] in all;
      }
    }
    if words != [] && forall i :: 0 <= i < |words| ==> words[i] == word {
      assert words[0] in all;
      assert all == {word};
    }
  }

  /** The words of a text are one scope, written once or more often. */
  ghost predicate OnlyScope(scope: string) {
    var words := Words(scope);
    && words != []
    && forall i :: 0 <= i < |words| ==> words[i] == "https://www.googleapis.com/auth/youtube.readonly"
  }

  /** An answer is accepted when it names no scope, or nothing but the read-only one. */
  lemma AcceptedExactly(a: Answer)
    ensures Accepted(a) <==> a.Answer? && (!Given(a.scope) || OnlyScope(a.scope.value))
  {
    hide Words;
    if a.Answer? && Given(a.scope) {
      OneWord(Words(a.scope.value), READONLY_SCOPE);
    }
  }
}
