/**
 Access decisions: prefix grants, the claims of a token, and the check of both on every request
 (internal/auth/scope.go, internal/httpserver/server.go:188, 225-293, internal/domain/domain.go:9-34).
 */
module Access {
  import opened Wrappers
  import opened Names
  import Routes

  type Action = Routes.Action

  datatype Role = AdminRole | Reader

  datatype Grant = Grant(subjectType: string, repositoryPrefix: string, actions: seq<Action>)

  datatype Scope = Scope(kind: string, name: string, actions: seq<Action>)

  /** A claim of a token has the shape of the scope it was granted for. */
  type Claim = Scope

  datatype Principal = Principal(role: Role, access: seq<Claim>)

  // ---------------------------------------------------------------- scopes as text

  function Text(action: Action): string {
    match action
    case Pull => "pull"
    case Push => "push"
    case Delete => "delete"
    case Admin => "admin"
  }

  function ActionNamed(text: string): Option<Action> {
    if text == "pull" then Some(Routes.Pull)
    else if text == "push" then Some(Routes.Push)
    else if text == "delete" then Some(Routes.Delete)
    else if text == "admin" then Some(Routes.Admin)
    else None
  }

  /** The actions of a list, empty entries left out; None when one of them is no action. */
  function ActionsNamed(texts: seq<string>): Option<seq<Action>> {
    if texts == [] then Some([])
    else
      var rest, last := ActionsNamed(texts[..|texts| - 1]), texts[|texts| - 1];
      if rest.None? || last == "" then rest
      else match ActionNamed(last)
           case Some(action) => Some(rest.value + [action])
           case None => None
  }

  function ParsedScope(raw: string): Option<Scope> {
    var parts := Split(raw, ':');
    if |parts| != 3 || parts[0] != "repository" || parts[1] == "" then None
    else match ActionsNamed(Split(parts[2], ','))
         case Some(actions) => if actions == [] then None else Some(Scope(parts[0], parts[1], actions))
         case None => None
  }

  method ParseScope(raw: string) returns (r: Option<Scope>)
    ensures r == ParsedScope(raw)
  {
    var parts := Split(raw, ':');
    if |parts| != 3 || parts[0] != "repository" || parts[1] == "" {
      return None;
    }
    var texts := Split(parts[2], ',');
    var actions: seq<Action> := [];
    var valid := true;
    for i := 0 to |texts|
      invariant ActionsNamed(texts[..i]) == if valid then Some(actions) else None
    {
      assert texts[..i + 1][..i] == texts[..i];
      if texts[i] == "" {
        continue;
      }
      match ActionNamed(texts[i])
      case Some(action) => actions := actions + [action];
      case None => valid := false;
    }
    assert texts[..|texts|] == texts;
    return if valid && actions != [] then Some(Scope(parts[0], parts[1], actions)) else None;
  }

  function Texts(actions: seq<Action>): (texts: seq<string>)
    ensures |texts| == |actions|
    ensures forall t :: t in texts ==> t != "" && ',' !in t && ':' !in t
  {
    seq(|actions|, i requires 0 <= i < |actions| => Text(actions[i]))
  }

  /** How a client asks for a scope, and how the server challenges for one. */
  function ScopeText(scope: Scope): string {
    scope.kind + ":" + scope.name + ":" + Join(Texts(scope.actions), ',')
  }

  lemma {:induction false} NamedTexts(actions: seq<Action>)
    ensures ActionsNamed(Texts(actions)) == Some(actions)
    decreases |actions|
  {
    if actions != [] {
      NamedTexts(actions[..|actions| - 1]);
      assert Texts(actions)[..|actions| - 1] == Texts(actions[..|actions| - 1]);
      assert actions == actions[..|actions| - 1] + [actions[|actions| - 1]];
    }
  }

  lemma {:induction false} JoinedWithout(texts: seq<string>, c: char)
    requires c != ',' && forall t :: t in texts ==> c !in t
    ensures c !in Join(texts, ',')
  {
    if |texts| > 1 {
      JoinedWithout(texts[1..], c);
    }
  }

  /**
   The scope round trip: a scope the server challenges for is read back as itself by the token endpoint exactly
   when its repository is named and holds no colon.
   */
  lemma ScopeRoundTripsExactly(name: string, actions: seq<Action>)
    requires actions != []
    ensures
      var scope := Scope("repository", name, actions);
      ParsedScope(ScopeText(scope)) == Some(scope) <==> name != "" && ':' !in name
  {
    hide ActionsNamed;
    hide Texts;
    hide Split;
    hide Join;
    var list := Join(Texts(actions), ',');
    JoinedWithout(Texts(actions), ':');
    SplitJoin(Texts(actions), ',');
    NamedTexts(actions);
    assert ActionsNamed(Split(list, ',')) == Some(actions);
    assert ':' !in "repository";
    ScopeParts("repository", name, list);
    PlainExactly(name);
  }

  lemma {:induction false} ScopeParts(kind: string, name: string, list: string)
    requires ':' !in kind && ':' !in list
    ensures Split(kind + ":" + name + ":" + list, ':') == [kind] + Split(name, ':') + [list]
  {
    var tail := name + [':'] + list;
    assert kind + ":" + name + ":" + list == kind + [':'] + tail;
    SplitConcat(kind, ':', tail);
    SplitConcat(name, ':', list);
    SplitPlain(kind, ':');
    SplitPlain(list, ':');
  }

  /** A text is one piece exactly when the separator is not in it. */
  lemma {:induction false} PlainExactly(name: string)
    ensures ':' !in name <==> Split(name, ':') == [name]
  {
    SplitPartsPlain(name, ':');
    if ':' !in name {
      SplitPlain(name, ':');
    } else {
      assert Split(name, ':') == [name] ==> name in Split(name, ':');
    }
  }

  /** The entries of a list that are not empty. */
  function NonEmpty(texts: seq<string>): seq<string> {
    if texts == [] then []
    else
      var rest, last := NonEmpty(texts[..|texts| - 1]), texts[|texts| - 1];
      if last == "" then rest else rest + [last]
  }

  lemma {:induction false} ActionsNamedExactly(texts: seq<string>, actions: seq<Action>)
    ensures ActionsNamed(texts) == Some(actions) <==> NonEmpty(texts) == Texts(actions)
    decreases |texts|
  {
    if texts != [] {
      var front, last := texts[..|texts| - 1], texts[|texts| - 1];
      if last == "" {
        ActionsNamedExactly(front, actions);
      } else if actions != [] {
        var most, action := actions[..|actions| - 1], actions[|actions| - 1];
        ActionsNamedExactly(front, most);
        assert Texts(actions) == Texts(most) + [Text(action)];
        assert actions == most + [action];
        LastNamed(NonEmpty(front), last, Texts(most), Text(action));
        assert ActionNamed(last) == Some(action) <==> last == Text(action);
      }
    }
  }

  lemma LastNamed(a: seq<string>, x: string, b: seq<string>, y: string)
    ensures a + [x] == b + [y] <==> a == b && x == y
  {
    if a + [x] == b + [y] {
      assert (a + [x])[..|a|] == a && (b + [y])[..|b|] == b && (a + [x])[|a|] == x && (b + [y])[|b|] == y;
    }
  }

  /**
   What a text asks for, exactly: a repository scope is read from "repository:", its name and a list of the words of
   its actions, in which empty entries count for nothing; from any other text none is.
   */
  lemma ScopeReadExactly(raw: string, scope: Scope)
    ensures ParsedScope(raw) == Some(scope) <==>
            && scope.kind == "repository" && scope.name != "" && ':' !in scope.name && scope.actions != []
            && exists list :: ':' !in list && raw == "repository:" + scope.name + ":" + list
                              && NonEmpty(Split(list, ',')) == Texts(scope.actions)
  {
    if ParsedScope(raw) == Some(scope) {
      ScopeIsWritten(raw, scope);
    }
    forall list | ':' !in list && ':' !in scope.name && raw == "repository:" + scope.name + ":" + list
      ensures scope.kind == "repository" && scope.name != "" && scope.actions != [] ==>
                (ParsedScope(raw) == Some(scope) <==> NonEmpty(Split(list, ',')) == Texts(scope.actions))
    {
      if scope.kind == "repository" && scope.name != "" && scope.actions != [] {
        WrittenIsRead(raw, scope, list);
      }
    }
  }

  lemma ScopeIsWritten(raw: string, scope: Scope)
    requires ParsedScope(raw) == Some(scope)
    ensures scope.kind == "repository" && scope.name != "" && ':' !in scope.name && scope.actions != []
    ensures exists list :: ':' !in list && raw == "repository:" + scope.name + ":" + list
                           && NonEmpty(Split(list, ',')) == Texts(scope.actions)
  {
    hide ActionsNamed;
    hide NonEmpty;
    hide Texts;
    hide Split;
    var parts := Split(raw, ':');
    JoinSplit(raw, ':');
    SplitPartsPlain(raw, ':');
    ActionsNamedExactly(Split(parts[2], ','), scope.actions);
    JoinOfThree(parts, ':');
    assert parts[1] in parts && parts[2] in parts;
    assert raw == "repository:" + scope.name + ":" + parts[2];
  }

  lemma {:induction false} WrittenIsRead(raw: string, scope: Scope, list: string)
    requires ':' !in list && ':' !in scope.name && raw == "repository:" + scope.name + ":" + list
    requires scope.kind == "repository" && scope.name != "" && scope.actions != []
    ensures ParsedScope(raw) == Some(scope) <==> NonEmpty(Split(list, ',')) == Texts(scope.actions)
  {
    hide ActionsNamed;
    hide NonEmpty;
    hide Texts;
    assert ':' !in "repository";
    assert raw == "repository" + ":" + scope.name + ":" + list;
    ScopeParts("repository", scope.name, list);
    SplitPlain(scope.name, ':');
    ActionsNamedExactly(Split(list, ','), scope.actions);
    hide Split;
  }

  lemma {:induction false} JoinOfThree(parts: seq<string>, sep: char)
    requires |parts| == 3
    ensures Join(parts, sep) == parts[0] + [sep] + parts[1] + [sep] + parts[2]
  {
    assert parts[1..][1..] == [parts[2]];
    assert Join(parts[1..], sep) == parts[1] + [sep] + parts[2];
  }

  /** The words of the four actions. */
  lemma WordsOfActions(name: string)
    requires name != "" && ':' !in name
    ensures ParsedScope("repository:" + name + ":pull") == Some(Scope("repository", name, [Routes.Pull]))
    ensures ParsedScope("repository:" + name + ":push") == Some(Scope("repository", name, [Routes.Push]))
    ensures ParsedScope("repository:" + name + ":delete") == Some(Scope("repository", name, [Routes.Delete]))
    ensures ParsedScope("repository:" + name + ":admin") == Some(Scope("repository", name, [Routes.Admin]))
  {
    WordOfAction(name, "pull", ":pull", Routes.Pull);
    WordOfAction(name, "push", ":push", Routes.Push);
    WordOfAction(name, "delete", ":delete", Routes.Delete);
    WordOfAction(name, "admin", ":admin", Routes.Admin);
  }

  lemma {:induction false} WordOfAction(name: string, word: string, tail: string, action: Action)
    requires name != "" && ':' !in name && word == Text(action) && tail == ":" + word
    ensures ParsedScope("repository:" + name + tail) == Some(Scope("repository", name, [action]))
  {
    var scope := Scope("repository", name, [action]);
    assert Join(Texts([action]), ',') == word;
    assert ScopeText(scope) == "repository:" + name + tail by {
      assert "repository" + ":" == "repository:";
    }
    ScopeRoundTripsExactly(name, [action]);
  }

  // ---------------------------------------------------------------- prefixes

  function TrimPrefix(s: string, prefix: string): string {
    if prefix <= s then s[|prefix|..] else s
  }

  function TrimSlash(s: string): string {
    if s != "" && s[|s| - 1] == '/' then s[..|s| - 1] else s
  }

  predicate RepositoryMatches(repository: string, prefix: string) {
    var prefix := TrimPrefix(prefix, "/");
    if prefix == "*" then true
    else if prefix == "" then false
    else
      var prefix := TrimSlash(prefix);
      repository == prefix || prefix + "/" <= repository
  }

  /** What a grant is for: everything, or the names that continue its components. */
  ghost predicate Covers(prefix: string, repository: string) {
    var trimmed := TrimPrefix(prefix, "/");
    || trimmed == "*"
    || (trimmed != "" && Split(TrimSlash(trimmed), '/') <= Split(repository, '/'))
  }

  lemma {:induction false} PrefixSplits(p: string, s: string)
    requires s == p || p + "/" <= s
    ensures Split(p, '/') <= Split(s, '/')
  {
    if s != p {
      assert s == p + ['/'] + s[|p| + 1..];
      SplitConcat(p, '/', s[|p| + 1..]);
    }
  }

  lemma {:induction false} SplitsAreJoined(p: string, s: string)
    requires Split(p, '/') <= Split(s, '/')
    ensures s == p || p + "/" <= s
  {
    JoinSplit(p, '/');
    JoinSplit(s, '/');
    var parts, k := Split(s, '/'), |Split(p, '/')|;
    assert parts[..k] == Split(p, '/');
    if k < |parts| {
      Routes.JoinParts(parts, k);
    } else {
      assert parts[..k] == parts;
    }
  }

  /** Matching text by text is matching component by component. */
  lemma MatchesExactlyWhatItCovers(repository: string, prefix: string)
    ensures RepositoryMatches(repository, prefix) <==> Covers(prefix, repository)
  {
    var p := TrimSlash(TrimPrefix(prefix, "/"));
    if repository == p || p + "/" <= repository {
      PrefixSplits(p, repository);
    } else if Split(p, '/') <= Split(repository, '/') {
      SplitsAreJoined(p, repository);
    }
  }

  /** Slashes around the prefix of a grant do not matter: it is for the name and for all below it. */
  lemma PrefixOfName(repository: string, name: string, prefix: string)
    requires name != "" && name != "*" && name[0] != '/' && name[|name| - 1] != '/'
    requires prefix == name || prefix == "/" + name || prefix == name + "/" || prefix == "/" + name + "/"
    ensures RepositoryMatches(repository, prefix) <==> repository == name || name + "/" <= repository
  {
    assert prefix == "/" + name ==> prefix[1..] == name;
    assert prefix == "/" + name + "/" ==> prefix[1..] == name + "/";
    assert (name + "/")[..|name|] == name;
  }

  /** A star is for everything, no prefix for nothing. */
  lemma StarAndNothing(repository: string)
    ensures RepositoryMatches(repository, "*") && RepositoryMatches(repository, "/*")
    ensures !RepositoryMatches(repository, "") && !RepositoryMatches(repository, "/")
  {
    assert "*"[0] != '/';
    assert TrimPrefix("/*", "/") == "*" && TrimPrefix("/", "/") == "" && TrimPrefix("*", "/") == "*";
  }

  // ---------------------------------------------------------------- intersecting grants and requests

  /** The first occurrence of each action, in order. */
  function Unique(actions: seq<Action>): seq<Action> {
    if actions == [] then []
    else
      var rest, last := Unique(actions[..|actions| - 1]), actions[|actions| - 1];
      if last in rest then rest else rest + [last]
  }

  function Kept(actions: seq<Action>, allowed: set<Action>): seq<Action> {
    if actions == [] then []
    else
      var rest, last := Kept(actions[..|actions| - 1], allowed), actions[|actions| - 1];
      if last in allowed then rest + [last] else rest
  }

  predicate Applies(grant: Grant, repository: string) {
    grant.subjectType == "user" && RepositoryMatches(repository, grant.repositoryPrefix)
  }

  function GrantedActions(grants: seq<Grant>, repository: string): set<Action> {
    if grants == [] then {}
    else
      var rest, last := GrantedActions(grants[..|grants| - 1], repository), grants[|grants| - 1];
      if Applies(last, repository) then rest + Listed(last.actions) else rest
  }

  function Listed(actions: seq<Action>): set<Action> {
    set action | action in actions
  }

  function Allowed(role: Role, grants: seq<Grant>, scope: Scope): seq<Action> {
    Unique(if role.AdminRole? then scope.actions else Kept(scope.actions, GrantedActions(grants, scope.name)))
  }

  function Intersected(role: Role, grants: seq<Grant>, requested: seq<Scope>): seq<Claim> {
    if requested == [] then []
    else
      var rest, scope := Intersected(role, grants, requested[..|requested| - 1]), requested[|requested| - 1];
      var allowed := Allowed(role, grants, scope);
      if allowed == [] then rest else rest + [scope.(actions := allowed)]
  }

  method UniqueActions(actions: seq<Action>) returns (result: seq<Action>)
    ensures result == Unique(actions)
  {
    var seen: set<Action> := {};
    result := [];
    for i := 0 to |actions|
      invariant result == Unique(actions[..i]) && seen == Listed(result)
    {
      assert actions[..i + 1][..i] == actions[..i];
      if actions[i] in seen {
        continue;
      }
      seen := seen + {actions[i]};
      result := result + [actions[i]];
    }
    assert actions[..|actions|] == actions;
  }

  method AllowedActions(role: Role, grants: seq<Grant>, scope: Scope) returns (result: seq<Action>)
    ensures result == Allowed(role, grants, scope)
  {
    if role.AdminRole? {
      result := UniqueActions(scope.actions);
      return;
    }
    var allowed := CollectGranted(grants, scope.name);
    var seen: set<Action> := {};
    result := [];
    for i := 0 to |scope.actions|
      invariant result == Unique(Kept(scope.actions[..i], allowed)) && seen == Listed(result)
    {
      assert scope.actions[..i + 1][..i] == scope.actions[..i];
      var requested := scope.actions[i];
      ghost var kept := Kept(scope.actions[..i], allowed);
      if requested in allowed {
        assert (kept + [requested])[..|kept|] == kept;
        if requested !in seen {
          result := result + [requested];
          seen := seen + {requested};
        }
      }
    }
    assert scope.actions[..|scope.actions|] == scope.actions;
  }

  method CollectGranted(grants: seq<Grant>, name: string) returns (allowed: set<Action>)
    ensures allowed == GrantedActions(grants, name)
  {
    allowed := {};
    for i := 0 to |grants|
      invariant allowed == GrantedActions(grants[..i], name)
    {
      assert grants[..i + 1][..i] == grants[..i];
      var grant := grants[i];
      if grant.subjectType != "user" || !RepositoryMatches(name, grant.repositoryPrefix) {
        continue;
      }
      ghost var before := allowed;
      for j := 0 to |grant.actions|
        invariant allowed == before + Listed(grant.actions[..j])
      {
        assert Listed(grant.actions[..j + 1]) == Listed(grant.actions[..j]) + {grant.actions[j]};
        allowed := allowed + {grant.actions[j]};
      }
      assert grant.actions[..|grant.actions|] == grant.actions;
    }
    assert grants[..|grants|] == grants;
  }

  method IntersectAccess(role: Role, grants: seq<Grant>, requested: seq<Scope>) returns (access: seq<Claim>)
    ensures access == Intersected(role, grants, requested)
  {
    access := [];
    for i := 0 to |requested|
      invariant access == Intersected(role, grants, requested[..i])
    {
      assert requested[..i + 1][..i] == requested[..i];
      var allowed := AllowedActions(role, grants, requested[i]);
      if allowed == [] {
        continue;
      }
      access := access + [Scope(requested[i].kind, requested[i].name, allowed)];
    }
    assert requested[..|requested|] == requested;
  }

  predicate HasAccess(access: seq<Claim>, repository: string, action: Action) {
    exists claim :: claim in access && claim.kind == "repository" && claim.name == repository &&
      (action in claim.actions || Routes.Admin in claim.actions)
  }

  /** handleRegistry: the claims of the token, and the grants of the moment. */
  predicate Passes(principal: Principal, grants: seq<Grant>, repository: string, action: Action) {
    && HasAccess(principal.access, repository, action)
    && (principal.role.AdminRole?
        || HasAccess(Intersected(principal.role, grants, [Scope("repository", repository, [action])]), repository, action))
  }

  /** The catalog goes by the role alone. */
  predicate Served(principal: Principal, grants: seq<Grant>, route: Routes.Route) {
    if route.target.Catalog? then principal.role.AdminRole?
    else Passes(principal, grants, route.target.repository, route.action)
  }

  // ---------------------------------------------------------------- what passes

  /** The same actions, none of them twice. */
  lemma {:induction false} UniqueKeeps(actions: seq<Action>, action: Action)
    ensures action in Unique(actions) <==> action in actions
    ensures forall i, j :: 0 <= i < j < |Unique(actions)| ==> Unique(actions)[i] != Unique(actions)[j]
  {
    if actions != [] {
      UniqueKeeps(actions[..|actions| - 1], action);
      assert actions == actions[..|actions| - 1] + [actions[|actions| - 1]];
    }
  }

  /** What comes later in the list never moves what was first. */
  lemma {:induction false} UniqueGrows(actions: seq<Action>, more: seq<Action>)
    ensures Unique(actions) <= Unique(actions + more)
    decreases |more|
  {
    if more == [] {
      assert actions + more == actions;
    } else {
      UniqueGrows(actions, more[..|more| - 1]);
      assert (actions + more)[..|actions + more| - 1] == actions + more[..|more| - 1];
    }
  }

  lemma {:induction false} KeptMeans(actions: seq<Action>, allowed: set<Action>, action: Action)
    ensures action in Kept(actions, allowed) <==> action in actions && action in allowed
  {
    if actions != [] {
      KeptMeans(actions[..|actions| - 1], allowed, action);
      assert actions == actions[..|actions| - 1] + [actions[|actions| - 1]];
    }
  }

  /** Some grant to the user covers the repository and lists the action. */
  ghost predicate Grants(grants: seq<Grant>, repository: string, action: Action) {
    exists grant :: grant in grants && grant.subjectType == "user" && Covers(grant.repositoryPrefix, repository)
                    && action in grant.actions
  }

  lemma {:induction false} GrantedMeans(grants: seq<Grant>, repository: string, action: Action)
    ensures action in GrantedActions(grants, repository) <==> Grants(grants, repository, action)
  {
    if grants != [] {
      var last := grants[|grants| - 1];
      GrantedMeans(grants[..|grants| - 1], repository, action);
      MatchesExactlyWhatItCovers(repository, last.repositoryPrefix);
      assert grants == grants[..|grants| - 1] + [last];
      hide Covers;
      hide RepositoryMatches;
    }
  }

  lemma AllowedMeans(role: Role, grants: seq<Grant>, scope: Scope, action: Action)
    ensures action in Allowed(role, grants, scope) <==>
            action in scope.actions && (role.AdminRole? || Grants(grants, scope.name, action))
  {
    var kept := if role.AdminRole? then scope.actions else Kept(scope.actions, GrantedActions(grants, scope.name));
    UniqueKeeps(kept, action);
    KeptMeans(scope.actions, GrantedActions(grants, scope.name), action);
    GrantedMeans(grants, scope.name, action);
  }

  /** A claim that gives the action was requested for it, and granted then. */
  ghost predicate Claimed(role: Role, grants: seq<Grant>, requested: seq<Scope>, repository: string, action: Action) {
    exists scope :: scope in requested && scope.kind == "repository" && scope.name == repository &&
      exists claimed :: claimed in scope.actions && (claimed == action || claimed == Routes.Admin)
                        && (role.AdminRole? || Grants(grants, repository, claimed))
  }

  lemma {:induction false} IntersectionMeans(role: Role, grants: seq<Grant>, requested: seq<Scope>, repository: string, action: Action)
    ensures HasAccess(Intersected(role, grants, requested), repository, action) <==>
            Claimed(role, grants, requested, repository, action)
  {
    if requested != [] {
      var front, scope := requested[..|requested| - 1], requested[|requested| - 1];
      IntersectionMeans(role, grants, front, repository, action);
      assert requested == front + [scope];
      AllowedMeans(role, grants, scope, action);
      AllowedMeans(role, grants, scope, Routes.Admin);
      hide Grants;
      hide Allowed;
    }
  }

  /**
   The access decision is exact: a request of a user who is no administrator passes if and only if the token claims
   the repository with that action or with admin, and a current grant to the user lists that very action with a
   prefix that is "*" or a segment-wise prefix of the name.
   */
  lemma DecisionIsExact(principal: Principal, grants: seq<Grant>, repository: string, action: Action)
    ensures Passes(principal, grants, repository, action) <==>
            && (exists claim :: claim in principal.access && claim.kind == "repository" && claim.name == repository
                                && (action in claim.actions || Routes.Admin in claim.actions))
            && (principal.role.AdminRole? || Grants(grants, repository, action))
  {
    var scope := Scope("repository", repository, [action]);
    IntersectionMeans(principal.role, grants, [scope], repository, action);
    assert scope in [scope] && action in scope.actions;
    hide Grants;
    hide Intersected;
  }

  /**
   Whoever holds a token for pulls alone, or is no administrator and granted nothing but pulls, changes no tag, no
   manifest, no blob and no upload by any request, and only an administrator gets the catalog.
   */
  lemma PullersChangeNothing(principal: Principal, grants: seq<Grant>, verb: Routes.Verb, path: string)
    requires Routes.Parse(verb, path).Some?
    ensures
      var route := Routes.Parse(verb, path).value;
      && (Served(principal, grants, route) && Routes.Changes(route.target, verb) ==>
            && (exists claim :: claim in principal.access && exists a :: a in claim.actions && a != Routes.Pull)
            && (principal.role.AdminRole? || exists grant :: grant in grants && exists a :: a in grant.actions && a != Routes.Pull))
      && (Served(principal, grants, route) && route.target.Catalog? ==> principal.role.AdminRole?)
  {
    var route := Routes.Parse(verb, path).value;
    Routes.ChangesNeedMore(verb, path);
    if !route.target.Catalog? {
      DecisionIsExact(principal, grants, route.target.repository, route.action);
    }
    hide Routes.Parse;
    hide Passes;
    hide Covers;
  }

  /** A token minted under some grants and used under others: both must have granted, then and now. */
  lemma {:induction false} TokenAndGrantsCompose(role: Role, atIssue: seq<Grant>, requested: seq<Scope>, atUse: seq<Grant>,
                              repository: string, action: Action)
    ensures Passes(Principal(role, Intersected(role, atIssue, requested)), atUse, repository, action) <==>
            Claimed(role, atIssue, requested, repository, action)
            && (role.AdminRole? || Grants(atUse, repository, action))
  {
    DecisionIsExact(Principal(role, Intersected(role, atIssue, requested)), atUse, repository, action);
    IntersectionMeans(role, atIssue, requested, repository, action);
  }

  /** Granting more, at issue or at use, never takes access away. */
  lemma {:induction false} GrantsOnlyAdd(role: Role, atIssue: seq<Grant>, moreAtIssue: seq<Grant>, requested: seq<Scope>,
                      atUse: seq<Grant>, moreAtUse: seq<Grant>, repository: string, action: Action)
    requires forall grant :: grant in atIssue ==> grant in moreAtIssue
    requires forall grant :: grant in atUse ==> grant in moreAtUse
    requires Passes(Principal(role, Intersected(role, atIssue, requested)), atUse, repository, action)
    ensures Passes(Principal(role, Intersected(role, moreAtIssue, requested)), moreAtUse, repository, action)
  {
    TokenAndGrantsCompose(role, atIssue, requested, atUse, repository, action);
    TokenAndGrantsCompose(role, moreAtIssue, requested, moreAtUse, repository, action);
    assert forall claimed :: Grants(atIssue, repository, claimed) ==> Grants(moreAtIssue, repository, claimed);
    hide Passes;
    hide Covers;
  }
}
