/**
 Registry tokens: issuing claims for the scopes of a request, and the checks a verifier makes on
 them. The signature, the authenticator, the repository resolver, the policy, the clock and the
 random token id are parameters. Durations and clock readings are in nanoseconds since the Unix
 epoch; the times inside claims are in whole seconds.
 */
module Tokens {
  import opened Wrappers
  import opened Text
  import opened Scopes

  const Second: int := 1_000_000_000
  const Minute: int := 60 * Second
  const MaxClientIdBytes := 128

  datatype Error = InvalidRequest | InvalidCredentials | RateLimited | Unavailable

  /** Actions are any strings here, and a nil slice is not an empty one. */
  datatype Access = Access(resourceType: string, name: string, actions: Option<seq<string>>)

  datatype Claims = Claims(
    issuer: string,
    subject: string,
    audience: string,
    expiresAt: int,
    notBefore: int,
    issuedAt: int,
    id: string,
    access: Option<seq<Access>>)

  // The verifier

  /** The scope value that an access entry is checked as. */
  function AccessText(a: Access): string
    requires a.actions.Some?
  {
    a.resourceType + ":" + a.name + ":" + if a.actions.value == [] then "pull" else Join(a.actions.value, ',')
  }

  predicate AccessOk(a: Access) {
    a.resourceType == ResourceRepository && a.name != "" && a.actions.Some?
    && var scope := ScopeOf(AccessText(a));
       scope.Some? && scope.value.name == a.name
       && (a.actions.value == [] || Words(scope.value.actions) == a.actions.value)
  }

  predicate DistinctAccess(access: seq<Access>) {
    forall i, j | 0 <= i < j < |access| :: access[i].name != access[j].name
  }

  predicate ShapeOk(claims: Claims) {
    claims.issuer != "" && claims.audience != "" && claims.id != ""
    && claims.notBefore <= claims.issuedAt < claims.expiresAt
    && claims.access.Some?
    && DistinctAccess(claims.access.value)
    && forall a | a in claims.access.value :: AccessOk(a)
  }

  method ValidateAccess(access: Access) returns (ok: bool)
    ensures ok <==> AccessOk(access)
  {
    if access.resourceType != ResourceRepository || access.name == "" || access.actions.None? {
      return false;
    }
    hide ScopeOf, Words, AccessText;
    var scope := ParseScope(AccessText(access));
    ok := scope.Some? && scope.value.name == access.name
          && (access.actions.value == [] || Words(scope.value.actions) == access.actions.value);
  }

  function NamesSeen(access: seq<Access>): set<string> {
    set a | a in access :: a.name
  }

  lemma OneMoreAccess(access: seq<Access>, i: nat)
    requires i < |access|
    ensures NamesSeen(access[..i + 1]) == NamesSeen(access[..i]) + {access[i].name}
    ensures DistinctAccess(access[..i + 1])
       <==> DistinctAccess(access[..i]) && access[i].name !in NamesSeen(access[..i])
  {
    var before := access[..i];
    assert access[..i + 1] == before + [access[i]];
    if access[i].name in NamesSeen(before) {
      var k :| 0 <= k < i && before[k].name == access[i].name;
      assert access[..i + 1][k].name == access[..i + 1][i].name;
    }
  }

  lemma NoAccessYet()
    ensures NamesSeen([]) == {} && DistinctAccess([])
  {
  }

  lemma DistinctPrefix(access: seq<Access>, i: nat)
    requires i <= |access| && DistinctAccess(access)
    ensures DistinctAccess(access[..i])
  {
  }

  method ValidateAccesses(access: seq<Access>) returns (ok: bool)
    ensures ok <==> DistinctAccess(access) && forall a | a in access :: AccessOk(a)
  {
    hide *;
    var seenNames: set<string> := {};
    NoAccessYet();
    for i := 0 to |access|
      invariant seenNames == NamesSeen(access[..i]) && DistinctAccess(access[..i])
      invariant forall k | 0 <= k < i :: AccessOk(access[k])
    {
      OneMoreAccess(access, i);
      var valid := ValidateAccess(access[i]);
      if !valid {
        return false;
      }
      if access[i].name in seenNames {
        if DistinctAccess(access) {
          DistinctPrefix(access, i + 1);
        }
        return false;
      }
      seenNames := seenNames + {access[i].name};
    }
    assert access[..|access|] == access;
    ok := true;
  }

  method ValidateShape(claims: Claims) returns (ok: bool)
    ensures ok <==> ShapeOk(claims)
  {
    hide AccessOk, DistinctAccess;
    if claims.issuer == "" || claims.audience == "" || claims.id == ""
       || claims.expiresAt <= claims.issuedAt || claims.notBefore > claims.issuedAt
       || claims.access.None? {
      return false;
    }
    ok := ValidateAccesses(claims.access.value);
  }

  datatype Verifier = Verifier(issuer: string, audience: string, skew: nat)

  /** validateClaims at a clock reading. */
  predicate Accepts(v: Verifier, claims: Claims, now: int) {
    ShapeOk(claims)
    && claims.issuer == v.issuer && claims.audience == v.audience
    && now < claims.expiresAt * Second
    && !(now + v.skew < claims.notBefore * Second)
    && !(now + v.skew < claims.issuedAt * Second)
  }

  /** An access entry is accepted exactly when it names a valid repository with ordered actions. */
  lemma AccessOkIff(a: Access)
    ensures AccessOk(a)
       <==> a.resourceType == ResourceRepository && a.actions.Some?
            && exists s :: WellFormed(s) && s.name == a.name
                           && (a.actions.value == [] || a.actions.value == Words(s.actions))
  {
    hide WellFormed, ScopeOf;
    if AccessOk(a) {
      TextOfParsed(AccessText(a));
    }
    forall s | a.resourceType == ResourceRepository && a.actions.Some? && WellFormed(s) && s.name == a.name
               && (a.actions.value == [] || a.actions.value == Words(s.actions))
      ensures AccessOk(a)
    {
      AccessForScope(s, a);
    }
  }

  /**
   The shape that is signed and verified: an issuer, an audience, an identifier, a life that does not
   begin after its issue nor end with it, and distinct valid repositories with ordered actions.
   */
  lemma ShapeIff(claims: Claims)
    ensures ShapeOk(claims)
       <==> claims.issuer != "" && claims.audience != "" && claims.id != ""
            && claims.expiresAt > claims.issuedAt && claims.issuedAt >= claims.notBefore
            && claims.access.Some?
            && (forall i, j | 0 <= i < j < |claims.access.value| ::
                  claims.access.value[i].name != claims.access.value[j].name)
            && forall i | 0 <= i < |claims.access.value| :: Accessible(claims.access.value[i])
  {
    hide WellFormed, AccessOk;
    if claims.access.Some? {
      forall i | 0 <= i < |claims.access.value|
        ensures AccessOk(claims.access.value[i]) <==> Accessible(claims.access.value[i])
      {
        AccessOkIff(claims.access.value[i]);
      }
    }
  }

  /** An entry that names a repository by its two parts, with no actions or with some, in order. */
  ghost predicate Accessible(a: Access) {
    a.resourceType == "repository" && a.actions.Some?
    && exists s :: WellFormed(s) && s.name == a.name
                   && (a.actions.value == [] || a.actions.value == Words(s.actions))
  }

  /** A verifier wants the shape, its own issuer and audience, and a clock from nbf and iat, less its skew, up to exp. */
  lemma AcceptsIff(v: Verifier, claims: Claims, now: int)
    ensures Accepts(v, claims, now)
       <==> ShapeOk(claims) && claims.issuer == v.issuer && claims.audience == v.audience
            && now < claims.expiresAt * 1_000_000_000
            && claims.notBefore * 1_000_000_000 <= now + v.skew
            && claims.issuedAt * 1_000_000_000 <= now + v.skew
  {
    hide ShapeOk;
  }

  /** Tokens live a whole number of seconds, from one minute to fifteen, and clocks may differ by up to a minute. */
  lemma OptionsIff(o: Options)
    ensures ValidOptions(o)
       <==> o.service != "" && o.issuer != ""
            && (exists seconds :: 60 <= seconds <= 900 && o.tokenTtl == seconds * 1_000_000_000)
            && 0 <= o.clockSkew <= 60_000_000_000
  {
    if ValidOptions(o) {
      var seconds := o.tokenTtl / Second;
      assert 60 <= seconds <= 900 && o.tokenTtl == seconds * 1_000_000_000;
    }
  }

  lemma AccessForScope(s: Scope, a: Access)
    requires WellFormed(s) && a.resourceType == ResourceRepository && a.name == s.name
    requires a.actions == Some([]) || a.actions == Some(Words(s.actions))
    ensures AccessOk(a)
  {
    assert s.name != "" && s.actions != [];
    PullsFor(s);
    hide WellFormed, ScopeOf, Words;
    if a.actions == Some([]) {
      ParseOfPrint(s.(actions := [Pull]));
    } else {
      ParseOfPrint(s);
    }
  }

  lemma PullsFor(s: Scope)
    requires WellFormed(s)
    ensures WellFormed(s.(actions := [Pull]))
    ensures Words([Pull]) == ["pull"] && Join(["pull"], ',') == "pull"
    ensures Words(s.actions) != []
  {
    assert Members([Pull]) == {Pull};
  }

  // The issuer

  datatype Options = Options(service: string, issuer: string, tokenTtl: int, clockSkew: int)

  /** What the service constructors demand. */
  predicate ValidOptions(o: Options) {
    o.service != "" && o.issuer != ""
    && Minute <= o.tokenTtl <= 15 * Minute && o.tokenTtl % Second == 0
    && 0 <= o.clockSkew <= Minute
  }

  /** Sixteen random bytes in base64 are never the empty string. */
  type TokenId = id: string | id != "" witness "A"

  datatype Capability = PullPrivateRepositories | PushRepositories

  datatype Ownership = Personal(isOwner: bool) | Organization(role: string) | Unknown

  datatype Repository = Repository(isPublic: bool, ownership: Ownership)

  datatype Resolved = Found(repository: Repository) | NotFound | Broken

  datatype Policy = Policy(
    allowsPublicPull: bool -> bool,
    allowsPersonal: (bool, Capability) -> bool,
    allowsOrganization: (string, Capability) -> bool)

  /** The collaborators of one call. */
  datatype Context = Context(
    authenticated: Result<string, Error>,
    resolve: (string, string, string) -> Resolved,
    policy: Policy,
    clock: int,
    tokenId: Option<TokenId>,
    signs: bool)

  datatype Credentials = Anonymous | Given(username: string)

  datatype Request = Request(
    service: string,
    rawScopes: seq<string>,
    clientId: string,
    credentials: Credentials)

  predicate ValidClientId(value: string) {
    |value| <= MaxClientIdBytes && forall c | c in value :: 0x20 as char <= c <= 0x7e as char
  }

  /** The subject of a request, empty for an anonymous one. */
  function Subject(ctx: Context, credentials: Credentials): Result<string, Error> {
    match credentials
    case Anonymous => Success("")
    case Given(username) =>
      if username == "" then Failure(InvalidCredentials)
      else
        match ctx.authenticated
        case Failure(e) =>
          if e == InvalidCredentials || e == RateLimited then Failure(e) else Failure(Unavailable)
        case Success(subject) => if subject == "" then Failure(Unavailable) else Success(subject)
  }

  /** What the policy lets a subject do: nobody deletes, and the anonymous pull what is public. */
  predicate Allows(policy: Policy, subject: string, repository: Repository, action: Action) {
    (action == Pull && policy.allowsPublicPull(repository.isPublic))
    || (subject != "" && action != Delete
        && var capability := if action == Pull then PullPrivateRepositories else PushRepositories;
           match repository.ownership
           case Personal(isOwner) => policy.allowsPersonal(isOwner, capability)
           case Organization(role) => policy.allowsOrganization(role, capability)
           case Unknown => false)
  }

  predicate CannotDecide(resolved: Resolved, subject: string) {
    resolved.Broken? || (resolved.Found? && subject != "" && resolved.repository.ownership.Unknown?)
  }

  /** The pairs of a scope that are granted. */
  predicate Grants(ctx: Context, subject: string, scope: Scope, action: Action) {
    var resolved := ctx.resolve(subject, scope.namespace, scope.repository);
    action in scope.actions && resolved.Found? && Allows(ctx.policy, subject, resolved.repository, action)
  }

  function Granted(ctx: Context, subject: string, scope: Scope): set<Action> {
    set action | action in scope.actions && Grants(ctx, subject, scope, action)
  }

  function Decided(ctx: Context, subject: string, scope: Scope): Result<seq<Action>, Error> {
    if CannotDecide(ctx.resolve(subject, scope.namespace, scope.repository), subject) then
      Failure(Unavailable)
    else
      Success(Ordered(Granted(ctx, subject, scope)))
  }

  method Authorize(ctx: Context, subject: string, scope: Scope) returns (r: Result<seq<Action>, Error>)
    ensures r == Decided(ctx, subject, scope)
  {
    var resolved := ctx.resolve(subject, scope.namespace, scope.repository);
    if resolved.NotFound? {
      assert Granted(ctx, subject, scope) == {} && Ordered({}) == [];
      return Success([]);
    }
    if resolved.Broken? {
      return Failure(Unavailable);
    }
    var repository := resolved.repository;
    var allowed: set<Action> := {};
    if ctx.policy.allowsPublicPull(repository.isPublic) {
      allowed := allowed + {Pull};
    }
    if subject != "" {
      match repository.ownership {
        case Personal(isOwner) =>
          if ctx.policy.allowsPersonal(isOwner, PullPrivateRepositories) {
            allowed := allowed + {Pull};
          }
          if ctx.policy.allowsPersonal(isOwner, PushRepositories) {
            allowed := allowed + {Push};
          }
        case Organization(role) =>
          if ctx.policy.allowsOrganization(role, PullPrivateRepositories) {
            allowed := allowed + {Pull};
          }
          if ctx.policy.allowsOrganization(role, PushRepositories) {
            allowed := allowed + {Push};
          }
        case Unknown => return Failure(Unavailable);
      }
    }
    assert forall action :: action in allowed <==> Allows(ctx.policy, subject, repository, action);
    assert Members(scope.actions) * allowed == Granted(ctx, subject, scope);
    var result := IntersectInOrder(Members(scope.actions), allowed);
    r := Success(result);
  }

  /** The requested actions that are allowed, in order. */
  method IntersectInOrder(requested: set<Action>, allowed: set<Action>) returns (result: seq<Action>)
    ensures result == Ordered(requested * allowed)
  {
    result := [];
    for i := 0 to |ActionOrder|
      invariant result == Ordered(requested * allowed * Members(ActionOrder[..i]))
    {
      if ActionOrder[i] in requested && ActionOrder[i] in allowed {
        result := result + [ActionOrder[i]];
      }
      assert ActionOrder[..i + 1] == ActionOrder[..i] + [ActionOrder[i]];
    }
    WholeOrder(requested * allowed);
  }

  /** issueSignedToken: the claims that are signed at a clock reading. */
  function ClaimsAt(o: Options, subject: string, id: TokenId, clock: int, access: seq<Access>): Claims {
    var now := clock - clock % Second;
    Claims(o.issuer, subject, o.service, (now + o.tokenTtl) / Second, (now - o.clockSkew) / Second,
           now / Second, id, Some(access))
  }

  method Sign(claims: Claims, signs: bool) returns (ok: bool)
    ensures ok <==> signs && ShapeOk(claims)
  {
    var valid := ValidateShape(claims);
    ok := valid && signs;
  }

  /** One access entry for each scope, with the granted actions, possibly none. */
  predicate AccessFor(ctx: Context, subject: string, scopes: seq<Scope>, access: seq<Access>) {
    |access| == |scopes|
    && forall i | 0 <= i < |scopes| ::
         access[i] == Access(ResourceRepository, scopes[i].name,
                             Some(Words(Ordered(Granted(ctx, subject, scopes[i])))))
  }

  predicate AllDecided(ctx: Context, subject: string, scopes: seq<Scope>) {
    forall scope | scope in scopes :: Decided(ctx, subject, scope).Success?
  }

  /** The claims that a request leads to, through the subject and the scopes it asks for. */
  predicate Issued(
      o: Options, ctx: Context, request: Request, subject: string, scopes: seq<Scope>, claims: Claims)
  {
    request.service == o.service && ValidClientId(request.clientId)
    && Parses(request.rawScopes, scopes)
    && Subject(ctx, request.credentials) == Success(subject)
    && AllDecided(ctx, subject, scopes)
    && ctx.tokenId.Some? && ctx.signs
    && claims.access.Some? && AccessFor(ctx, subject, scopes, claims.access.value)
    && claims == ClaimsAt(o, subject, ctx.tokenId.value, ctx.clock, claims.access.value)
  }

  predicate RequestOk(o: Options, request: Request) {
    request.service == o.service && ValidClientId(request.clientId)
    && |request.rawScopes| <= MaxScopes && AllParse(request.rawScopes)
  }

  method Issue(o: Options, ctx: Context, request: Request) returns (r: Result<Claims, Error>)
    requires ValidOptions(o)
    ensures r.Success? ==> exists subject, scopes :: Issued(o, ctx, request, subject, scopes, r.value)
    ensures r.Success? ==> ShapeOk(r.value)
    ensures !RequestOk(o, request) <==> r == Failure(InvalidRequest)
    ensures RequestOk(o, request) && Subject(ctx, request.credentials).Failure?
            ==> r == Failure(Subject(ctx, request.credentials).error)
    ensures RequestOk(o, request) && Subject(ctx, request.credentials).Success? && r.Failure?
            ==> r.error == Unavailable
                && (ctx.tokenId.None? || !ctx.signs
                    || exists scopes :: Parses(request.rawScopes, scopes)
                                        && !AllDecided(ctx, Subject(ctx, request.credentials).value, scopes))
  {
    hide ScopeOf, ShapeOk, ValidOptions, Decided, Granted, Canonical, Meaning, Requests;
    if request.service != o.service || !ValidClientId(request.clientId) {
      return Failure(InvalidRequest);
    }
    var parsed := ParseScopes(request.rawScopes);
    if parsed.None? {
      return Failure(InvalidRequest);
    }
    var scopes := parsed.value;
    var authenticated := Subject(ctx, request.credentials);
    if authenticated.Failure? {
      return Failure(authenticated.error);
    }
    r := IssueFor(o, ctx, request, authenticated.value, scopes);
  }

  method IssueFor(o: Options, ctx: Context, request: Request, subject: string, scopes: seq<Scope>)
    returns (r: Result<Claims, Error>)
    requires ValidOptions(o) && RequestOk(o, request) && Parses(request.rawScopes, scopes)
    requires Subject(ctx, request.credentials) == Success(subject)
    ensures r.Success? ==> Issued(o, ctx, request, subject, scopes, r.value) && ShapeOk(r.value)
    ensures r.Failure? <==> ctx.tokenId.None? || !ctx.signs || !AllDecided(ctx, subject, scopes)
    ensures r.Failure? ==> r.error == Unavailable
  {
    hide ScopeOf, ShapeOk, ValidOptions, Granted, Parses, Ordered;
    var access: seq<Access> := [];
    for i := 0 to |scopes|
      invariant AllDecided(ctx, subject, scopes[..i])
      invariant AccessFor(ctx, subject, scopes[..i], access)
    {
      var actions := Authorize(ctx, subject, scopes[i]);
      if actions.Failure? {
        return Failure(Unavailable);
      }
      access := access + [Access(ResourceRepository, scopes[i].name, Some(Words(actions.value)))];
      assert scopes[..i + 1] == scopes[..i] + [scopes[i]];
    }
    assert scopes[..|scopes|] == scopes;
    if ctx.tokenId.None? {
      return Failure(Unavailable);
    }
    var claims := ClaimsAt(o, subject, ctx.tokenId.value, ctx.clock, access);
    if ctx.signs {
      IssuedShape(o, ctx, request, subject, scopes, claims);
    }
    var signed := Sign(claims, ctx.signs);
    if !signed {
      return Failure(Unavailable);
    }
    r := Success(claims);
  }

  // What issued claims promise

  lemma TimesOf(o: Options, subject: string, id: TokenId, clock: int, access: seq<Access>)
    requires ValidOptions(o)
    ensures var claims := ClaimsAt(o, subject, id, clock, access);
            claims.issuedAt * Second <= clock < (claims.issuedAt + 1) * Second
            && claims.expiresAt * Second == claims.issuedAt * Second + o.tokenTtl
            && claims.notBefore * Second <= claims.issuedAt * Second - o.clockSkew
               < (claims.notBefore + 1) * Second
  {
  }

  lemma GrantedAccessOk(ctx: Context, subject: string, scope: Scope)
    requires WellFormed(scope)
    ensures AccessOk(Access(ResourceRepository, scope.name, Some(Words(Ordered(Granted(ctx, subject, scope))))))
  {
    var granted := Granted(ctx, subject, scope);
    OrderedMembers(granted);
    if granted == {} {
      assert Words(Ordered(granted)) == [];
      AccessForScope(scope, Access(ResourceRepository, scope.name, Some([])));
    } else {
      var narrowed := scope.(actions := Ordered(granted));
      AccessForScope(narrowed, Access(ResourceRepository, scope.name, Some(Words(narrowed.actions))));
    }
  }

  lemma NamesAreDistinct(scopes: seq<Scope>, i: nat, j: nat)
    requires Canonical(scopes) && i < j < |scopes|
    ensures scopes[i].name != scopes[j].name
  {
    assert NamesOf(scopes)[i] == scopes[i].name && NamesOf(scopes)[j] == scopes[j].name;
    LessIsTotal(scopes[i].name, scopes[i].name);
  }

  /** Whatever Issue signs has the shape that every verifier checks. */
  lemma IssuedShape(
      o: Options, ctx: Context, request: Request, subject: string, scopes: seq<Scope>, claims: Claims)
    requires ValidOptions(o) && Issued(o, ctx, request, subject, scopes, claims)
    ensures ShapeOk(claims)
  {
    TimesOf(o, subject, ctx.tokenId.value, ctx.clock, claims.access.value);
    var access := claims.access.value;
    forall i | 0 <= i < |access| ensures AccessOk(access[i]) {
      assert scopes[i] in scopes;
      GrantedAccessOk(ctx, subject, scopes[i]);
    }
    forall i, j | 0 <= i < j < |access| ensures access[i].name != access[j].name {
      NamesAreDistinct(scopes, i, j);
    }
    hide AccessOk, Parses, AllDecided, Granted, Ordered;
  }

  predicate Names(access: seq<Access>, name: string, action: Action) {
    exists i :: 0 <= i < |access| && access[i].name == name && access[i].actions.Some?
                && action.Name() in access[i].actions.value
  }

  lemma WordIn(actions: seq<Action>, action: Action)
    ensures action.Name() in Words(actions) <==> action in actions
  {
    if action in actions {
      var i :| 0 <= i < |actions| && actions[i] == action;
      assert Words(actions)[i] == action.Name();
    }
  }

  /** An action is granted on a repository exactly when a value asks for it and the policy allows it. */
  lemma GrantedIffRequestedAndAllowed(
      o: Options, ctx: Context, request: Request, subject: string, scopes: seq<Scope>, claims: Claims,
      k: nat, action: Action)
    requires Issued(o, ctx, request, subject, scopes, claims) && k < |scopes|
    ensures Names(claims.access.value, scopes[k].name, action)
       <==> (scopes[k].name, action) in Requests(request.rawScopes)
            && var resolved := ctx.resolve(subject, scopes[k].namespace, scopes[k].repository);
               resolved.Found? && Allows(ctx.policy, subject, resolved.repository, action)
    ensures !Names(claims.access.value, scopes[k].name, Delete)
  {
    hide WellFormed, Allows, ScopeOf, Words, Ordered, Requests;
    var access := claims.access.value;
    ActionsInMeaning(scopes, k, action);
    EntryNames(ctx, subject, scopes, access, k, action);
    EntryNames(ctx, subject, scopes, access, k, Delete);
    assert !Grants(ctx, subject, scopes[k], Delete) by {
      DeleteIsNeverAllowed(ctx, subject, scopes[k]);
    }
  }

  lemma DeleteIsNeverAllowed(ctx: Context, subject: string, scope: Scope)
    ensures !Grants(ctx, subject, scope, Delete)
  {
  }

  lemma EntryNames(ctx: Context, subject: string, scopes: seq<Scope>, access: seq<Access>, k: nat, action: Action)
    requires Canonical(scopes) && AccessFor(ctx, subject, scopes, access) && k < |scopes|
    ensures Names(access, scopes[k].name, action) <==> Grants(ctx, subject, scopes[k], action)
  {
    var granted := Granted(ctx, subject, scopes[k]);
    OrderedMembers(granted);
    WordIn(Ordered(granted), action);
    assert action in Members(Ordered(granted)) <==> action in Ordered(granted);
    hide Words, Ordered, Canonical;
    forall i | 0 <= i < |access| && access[i].name == scopes[k].name ensures i == k {
      if i < k { NamesAreDistinct(scopes, i, k); }
      if k < i { NamesAreDistinct(scopes, k, i); }
    }
  }

  // What the policy's answers grant

  /** The k-th access entry is for the k-th scope, and names an action exactly when it was asked for and allowed. */
  lemma EntryOfScope(
      o: Options, ctx: Context, request: Request, subject: string, scopes: seq<Scope>, claims: Claims,
      k: nat, action: Action)
    requires Issued(o, ctx, request, subject, scopes, claims) && k < |scopes|
    ensures claims.access.Some? && |claims.access.value| == |scopes|
    ensures var entry := claims.access.value[k];
            entry.resourceType == "repository" && entry.name == scopes[k].name && entry.actions.Some?
            && (action.Name() in entry.actions.value
                <==> (scopes[k].name, action) in Requests(request.rawScopes)
                     && var resolved := ctx.resolve(subject, scopes[k].namespace, scopes[k].repository);
                        resolved.Found? && Allows(ctx.policy, subject, resolved.repository, action))
  {
    hide WellFormed, Allows, ScopeOf, Words, Ordered, Requests;
    ActionsInMeaning(scopes, k, action);
    var granted := Granted(ctx, subject, scopes[k]);
    OrderedMembers(granted);
    WordIn(Ordered(granted), action);
    assert action in Members(Ordered(granted)) <==> action in Ordered(granted);
  }

  /**
   A token pushes to a repository exactly when a value asks for it, the subject is named, and the
   policy says that the owner of the namespace, or the member by role, may push repositories.
   */
  lemma PushGrantedIff(
      o: Options, ctx: Context, request: Request, subject: string, scopes: seq<Scope>, claims: Claims, k: nat)
    requires Issued(o, ctx, request, subject, scopes, claims) && k < |scopes|
    ensures claims.access.Some? && k < |claims.access.value| && claims.access.value[k].actions.Some?
    ensures claims.access.value[k].name == scopes[k].name
    ensures "push" in claims.access.value[k].actions.value
       <==> (scopes[k].name, Push) in Requests(request.rawScopes)
            && subject != ""
            && var resolved := ctx.resolve(subject, scopes[k].namespace, scopes[k].repository);
               resolved.Found?
               && match resolved.repository.ownership
                  case Personal(isOwner) => ctx.policy.allowsPersonal(isOwner, PushRepositories)
                  case Organization(role) => ctx.policy.allowsOrganization(role, PushRepositories)
                  case Unknown => false
  {
    EntryOfScope(o, ctx, request, subject, scopes, claims, k, Push);
    hide Issued, Requests;
  }

  /**
   A token pulls from a repository exactly when a value asks for it and the policy allows pulling
   what is public, if it is, or says that the named subject may pull private repositories.
   */
  lemma PullGrantedIff(
      o: Options, ctx: Context, request: Request, subject: string, scopes: seq<Scope>, claims: Claims, k: nat)
    requires Issued(o, ctx, request, subject, scopes, claims) && k < |scopes|
    ensures claims.access.Some? && k < |claims.access.value| && claims.access.value[k].actions.Some?
    ensures claims.access.value[k].name == scopes[k].name
    ensures "pull" in claims.access.value[k].actions.value
       <==> (scopes[k].name, Pull) in Requests(request.rawScopes)
            && var resolved := ctx.resolve(subject, scopes[k].namespace, scopes[k].repository);
               resolved.Found?
               && (ctx.policy.allowsPublicPull(resolved.repository.isPublic)
                   || (subject != ""
                       && match resolved.repository.ownership
                          case Personal(isOwner) => ctx.policy.allowsPersonal(isOwner, PullPrivateRepositories)
                          case Organization(role) => ctx.policy.allowsOrganization(role, PullPrivateRepositories)
                          case Unknown => false))
  {
    EntryOfScope(o, ctx, request, subject, scopes, claims, k, Pull);
    hide Issued, Requests;
  }

  /** Delete is never in a token, nor is any word but the two. */
  lemma NothingElseGranted(
      o: Options, ctx: Context, request: Request, subject: string, scopes: seq<Scope>, claims: Claims,
      k: nat, word: string)
    requires Issued(o, ctx, request, subject, scopes, claims) && k < |scopes|
    requires claims.access.Some? && k < |claims.access.value| && claims.access.value[k].actions.Some?
    requires word in claims.access.value[k].actions.value
    ensures word == "pull" || word == "push"
  {
    EntryOfScope(o, ctx, request, subject, scopes, claims, k, Delete);
    hide Issued, Requests, Ordered;
    assert claims.access.value[k].actions.value == Words(Ordered(Granted(ctx, subject, scopes[k]))) by {
      EntryIs(o, ctx, request, subject, scopes, claims, k);
    }
    var actions := Ordered(Granted(ctx, subject, scopes[k]));
    var i :| 0 <= i < |actions| && Words(actions)[i] == word;
    match actions[i]
    case Pull =>
    case Push =>
    case Delete => assert false;
  }

  lemma EntryIs(
      o: Options, ctx: Context, request: Request, subject: string, scopes: seq<Scope>, claims: Claims, k: nat)
    requires Issued(o, ctx, request, subject, scopes, claims) && k < |scopes|
    ensures claims.access.value[k].actions == Some(Words(Ordered(Granted(ctx, subject, scopes[k]))))
  {
    hide Parses, Words, Ordered, Granted, AllDecided;
  }

  /** A scope cannot be decided exactly when its policy is unreachable, or has no known owner for a named subject. */
  lemma UndecidedIff(ctx: Context, subject: string, scope: Scope)
    ensures Decided(ctx, subject, scope).Failure?
       <==> var resolved := ctx.resolve(subject, scope.namespace, scope.repository);
            resolved.Broken? || (resolved.Found? && subject != "" && resolved.repository.ownership.Unknown?)
    ensures Decided(ctx, subject, scope).Failure? ==> Decided(ctx, subject, scope).error == Unavailable
  {
  }

  /** Only a request without credentials is anonymous; any other subject is who the authenticator says. */
  lemma SubjectIff(ctx: Context, credentials: Credentials, subject: string)
    ensures Subject(ctx, credentials) == Success(subject)
       <==> if credentials.Anonymous? then subject == ""
            else credentials.username != "" && subject != "" && ctx.authenticated == Success(subject)
    ensures Subject(ctx, credentials) == Failure(RateLimited)
       <==> credentials.Given? && credentials.username != "" && ctx.authenticated == Failure(RateLimited)
    ensures Subject(ctx, credentials) == Failure(InvalidCredentials)
       <==> credentials.Given? && (credentials.username == "" || ctx.authenticated == Failure(InvalidCredentials))
  {
  }

  /** Issue takes a request for its own service, a short printable client, and at most 16 scope values. */
  lemma RequestOkIff(o: Options, request: Request)
    ensures RequestOk(o, request)
       <==> request.service == o.service
            && |request.clientId| <= 128 && (forall c | c in request.clientId :: ' ' <= c <= '~')
            && |request.rawScopes| <= 16 && forall value | value in request.rawScopes :: ScopeOf(value).Some?
  {
    hide ScopeOf;
  }

  /**
   A verifier for the same issuer and audience accepts issued claims exactly from its own skew
   before the second of issue until the life of the token has passed since then.
   */
  lemma AcceptedExactlyWithin(
      o: Options, ctx: Context, request: Request, subject: string, scopes: seq<Scope>, claims: Claims,
      v: Verifier, now: int)
    requires ValidOptions(o) && Issued(o, ctx, request, subject, scopes, claims)
    ensures Accepts(v, claims, now)
       <==> v.issuer == o.issuer && v.audience == o.service
            && claims.issuedAt * Second - v.skew <= now < claims.issuedAt * Second + o.tokenTtl
  {
    TimesOf(o, subject, ctx.tokenId.value, ctx.clock, claims.access.value);
    IssuedShape(o, ctx, request, subject, scopes, claims);
    hide ShapeOk, Parses, AccessFor, AllDecided;
  }

  /** In particular a token is accepted at the moment it is issued, and for its life less a second. */
  lemma AcceptedWhenIssued(
      o: Options, ctx: Context, request: Request, subject: string, scopes: seq<Scope>, claims: Claims,
      v: Verifier, later: nat)
    requires ValidOptions(o) && Issued(o, ctx, request, subject, scopes, claims)
    requires v.issuer == o.issuer && v.audience == o.service && later <= o.tokenTtl - Second
    ensures Accepts(v, claims, ctx.clock + later)
  {
    AcceptedExactlyWithin(o, ctx, request, subject, scopes, claims, v, ctx.clock + later);
    TimesOf(o, subject, ctx.tokenId.value, ctx.clock, claims.access.value);
    hide Issued, Accepts;
  }

  // Pull tokens for internal workflows

  function PullValue(path: string): string {
    ResourceRepository + ":" + path + ":pull"
  }

  predicate ValidPath(path: string) {
    var parts := Split(path, '/');
    |parts| == 2 && ValidName(parts[0]) && ValidName(parts[1])
  }

  method IssuePull(o: Options, subject: string, ctx: Context, path: string) returns (r: Result<Claims, Error>)
    requires ValidOptions(o)
    ensures r == Failure(InvalidRequest) <==> !ValidPath(path)
    ensures ValidPath(path) && (ctx.tokenId.None? || !ctx.signs) <==> r == Failure(Unavailable)
    ensures r.Success? ==> ctx.tokenId.Some? && ShapeOk(r.value)
                           && r.value == ClaimsAt(o, subject, ctx.tokenId.value, ctx.clock,
                                                  [Access(ResourceRepository, path, Some(["pull"]))])
  {
    var parsed := ParseScopes([PullValue(path)]);
    ghost var accepted := parsed.Some? && |parsed.value| == 1 && parsed.value[0].name == path
                          && parsed.value[0].actions == [Pull];
    assert accepted <==> ValidPath(path) by {
      PullAccepted(path, parsed);
    }
    if parsed.None? || |parsed.value| != 1 || parsed.value[0].name != path
       || |parsed.value[0].actions| != 1 || parsed.value[0].actions[0] != Pull {
      return Failure(InvalidRequest);
    }
    assert parsed.value[0].actions == [Pull];
    hide ScopeOf, ShapeOk, ValidName, Meaning, Requests;
    if ctx.tokenId.None? {
      return Failure(Unavailable);
    }
    var access := [Access(ResourceRepository, path, Some(["pull"]))];
    var claims := ClaimsAt(o, subject, ctx.tokenId.value, ctx.clock, access);
    PullShape(o, subject, ctx.tokenId.value, ctx.clock, path);
    var signed := Sign(claims, ctx.signs);
    if !signed {
      return Failure(Unavailable);
    }
    r := Success(claims);
  }

  function PullScope(path: string): Scope
    requires ValidPath(path)
  {
    var parts := Split(path, '/');
    Scope(ResourceRepository, path, parts[0], parts[1], [Pull])
  }

  lemma PullScopeIsWellFormed(path: string)
    requires ValidPath(path)
    ensures WellFormed(PullScope(path)) && Print(PullScope(path)) == PullValue(path)
  {
    var parts := Split(path, '/');
    JoinOfSplit(path, '/');
    assert Join(parts, '/') == parts[0] + ['/'] + Join(parts[1..], '/');
    assert Members([Pull]) == {Pull};
    assert Words([Pull]) == ["pull"];
  }

  /** What ParseScopes may answer for a single value. */
  predicate Answers(values: seq<string>, parsed: Option<seq<Scope>>) {
    (parsed.Some? <==> |values| <= MaxScopes && AllParse(values))
    && (parsed.Some? ==> Canonical(parsed.value) && Meaning(parsed.value) == Requests(values))
  }

  /** The guard of IssuePull lets through exactly the valid repository paths. */
  lemma PullAccepted(path: string, parsed: Option<seq<Scope>>)
    requires Answers([PullValue(path)], parsed)
    ensures parsed.Some? && |parsed.value| == 1 && parsed.value[0].name == path
            && parsed.value[0].actions == [Pull]
       <==> ValidPath(path)
  {
    hide ValidName, ScopeOf, Ordered, Members;
    if ValidPath(path) {
      PullScopeIsWellFormed(path);
      var scopes := [PullScope(path)];
      assert PrintAll(scopes) == [PullValue(path)];
      hide WellFormed;
      OneScopeIsCanonical(PullScope(path));
      ReparseOfPrint(scopes);
      assert Parses([PullValue(path)], parsed.value);
    }
    if parsed.Some? && |parsed.value| == 1 && parsed.value[0].name == path {
      assert parsed.value[0] in parsed.value;
      SplitName(parsed.value[0]);
    }
  }

  lemma OneScopeIsCanonical(s: Scope)
    requires WellFormed(s)
    ensures Canonical([s])
  {
  }

  lemma PullShape(o: Options, subject: string, id: TokenId, clock: int, path: string)
    requires ValidOptions(o) && ValidPath(path)
    ensures ShapeOk(ClaimsAt(o, subject, id, clock, [Access(ResourceRepository, path, Some(["pull"]))]))
  {
    var access := [Access(ResourceRepository, path, Some(["pull"]))];
    TimesOf(o, subject, id, clock, access);
    PullScopeIsWellFormed(path);
    assert Words([Pull]) == ["pull"];
    AccessForScope(PullScope(path), access[0]);
    hide AccessOk, ValidName, WellFormed;
  }

  /** Pull tokens are accepted in the same window as any other. */
  lemma PullAcceptedExactlyWithin(o: Options, subject: string, id: TokenId, clock: int, path: string, v: Verifier, now: int)
    requires ValidOptions(o) && ValidPath(path)
    ensures var claims := ClaimsAt(o, subject, id, clock, [Access(ResourceRepository, path, Some(["pull"]))]);
            (Accepts(v, claims, now)
             <==> v.issuer == o.issuer && v.audience == o.service
                  && claims.issuedAt * Second - v.skew <= now < claims.issuedAt * Second + o.tokenTtl)
  {
    PullShape(o, subject, id, clock, path);
    TimesOf(o, subject, id, clock, [Access(ResourceRepository, path, Some(["pull"]))]);
    hide ShapeOk;
  }
}
