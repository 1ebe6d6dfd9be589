/**
 Registry scopes, such as "repository:space/name:pull,push": parsing, and merging a request's
 values into a canonical list. Strings are sequences of bytes; what is accepted is ASCII, so a
 value that is not valid UTF-8 is refused with the other malformed ones.
 */
module Scopes {
  import opened Wrappers
  import opened Text

  const ResourceRepository := "repository"
  const MaxScopes := 16
  const MaxScopeBytes := 512
  const MaxNameLength := 64

  datatype Action = Pull | Push | Delete {
    function Name(): string {
      match this
      case Pull => "pull"
      case Push => "push"
      case Delete => "delete"
    }
  }

  const ActionOrder := [Pull, Push, Delete]

  datatype Scope = Scope(
    resourceType: string,
    name: string,
    namespace: string,
    repository: string,
    actions: seq<Action>)

  predicate ValidName(s: string) {
    |s| <= MaxNameLength && IsName(s)
  }

  /** strings.IndexByte: -1 when there is none. */
  function IndexOf(s: string, c: char): (i: int)
    ensures -1 <= i < |s|
    ensures i >= 0 ==> s[i] == c
    ensures forall j | 0 <= j < if i >= 0 then i else |s| :: s[j] != c
  {
    if s == "" then -1
    else if s[0] == c then 0
    else
      var i := IndexOf(s[1..], c);
      assert forall j | 1 <= j < |s| :: s[j] == s[1..][j - 1];
      if i < 0 then -1 else i + 1
  }

  /** strings.LastIndexByte: -1 when there is none. */
  function LastIndexOf(s: string, c: char): (i: int)
    ensures -1 <= i < |s|
    ensures i >= 0 ==> s[i] == c
    ensures forall j | i < j < |s| :: s[j] != c
  {
    if s == "" then -1
    else if s[|s| - 1] == c then |s| - 1
    else LastIndexOf(s[..|s| - 1], c)
  }

  function ActionOf(s: string): Option<Action> {
    if s == "pull" then Some(Pull)
    else if s == "push" then Some(Push)
    else if s == "delete" then Some(Delete)
    else None
  }

  predicate AllActions(parts: seq<string>) {
    forall part | part in parts :: ActionOf(part).Some?
  }

  function ActionsIn(parts: seq<string>): set<Action> {
    set part | part in parts && ActionOf(part).Some? :: ActionOf(part).value
  }

  function Ordered(actions: set<Action>): seq<Action> {
    (if Pull in actions then [Pull] else [])
    + (if Push in actions then [Push] else [])
    + (if Delete in actions then [Delete] else [])
  }

  function Members(actions: seq<Action>): set<Action> {
    set action | action in actions
  }

  /** The name in a scope value, between the first and the last colon. */
  function NameParts(value: string): Option<seq<string>> {
    var first, last := IndexOf(value, ':'), LastIndexOf(value, ':');
    if value == "" || |value| > MaxScopeBytes then None
    else if first <= 0 || last <= first + 1 || last == |value| - 1 then None
    else if value[..first] != ResourceRepository then None
    else
      var parts := Split(value[first + 1..last], '/');
      if |parts| == 2 && ValidName(parts[0]) && ValidName(parts[1]) then Some(parts) else None
  }

  function ActionParts(value: string): seq<string> {
    Split(value[LastIndexOf(value, ':') + 1..], ',')
  }

  function ScopeOf(value: string): Option<Scope> {
    match NameParts(value)
    case None => None
    case Some(parts) =>
      if AllActions(ActionParts(value)) then
        Some(Scope(ResourceRepository, parts[0] + "/" + parts[1], parts[0], parts[1],
                   Ordered(ActionsIn(ActionParts(value)))))
      else None
  }

  method OrderedActions(actions: set<Action>) returns (result: seq<Action>)
    ensures result == Ordered(actions)
  {
    result := [];
    for i := 0 to |ActionOrder|
      invariant result == Ordered(actions * Members(ActionOrder[..i]))
    {
      if ActionOrder[i] in actions {
        result := result + [ActionOrder[i]];
      }
      assert ActionOrder[..i + 1] == ActionOrder[..i] + [ActionOrder[i]];
    }
    WholeOrder(actions);
  }

  lemma WholeOrder(actions: set<Action>)
    ensures actions * Members(ActionOrder[..|ActionOrder|]) == actions
  {
    assert ActionOrder[..|ActionOrder|] == ActionOrder;
    forall action ensures action in Members(ActionOrder) {
      assert ActionOrder[0] == Pull && ActionOrder[1] == Push && ActionOrder[2] == Delete;
      assert action == Pull || action == Push || action == Delete;
    }
  }

  method ParseScope(value: string) returns (r: Option<Scope>)
    ensures r == ScopeOf(value)
  {
    match NameParts(value)
    case None => return None;
    case Some(parts) =>
      var actions: set<Action> := {};
      var raw := ActionParts(value);
      for i := 0 to |raw|
        invariant forall part | part in raw[..i] :: ActionOf(part).Some?
        invariant actions == ActionsIn(raw[..i])
      {
        match ActionOf(raw[i])
        case None => return None;
        case Some(action) =>
          actions := actions + {action};
          assert raw[..i + 1] == raw[..i] + [raw[i]];
      }
      assert raw[..|raw|] == raw;
      var ordered := OrderedActions(actions);
      r := Some(Scope(ResourceRepository, parts[0] + "/" + parts[1], parts[0], parts[1], ordered));
  }

  // What a scope value means

  /** A scope as the parser builds it: valid names, and its actions in order, at least one. */
  predicate WellFormed(s: Scope) {
    s.resourceType == ResourceRepository
    && ValidName(s.namespace) && ValidName(s.repository)
    && s.name == s.namespace + "/" + s.repository
    && s.actions != [] && s.actions == Ordered(Members(s.actions))
  }

  lemma OrderedMembers(actions: set<Action>)
    ensures Members(Ordered(actions)) == actions
    ensures Ordered(actions) == [] <==> actions == {}
  {
    forall action ensures action in Members(Ordered(actions)) <==> action in actions {
      match action
      case Pull =>
      case Push =>
      case Delete =>
    }
    if actions != {} {
      var action :| action in actions;
      assert action in Members(Ordered(actions));
    }
  }

  lemma NameHasNo(s: string, c: char)
    requires ValidName(s) && !IsAlphanumeric(c) && !IsSeparator(c)
    ensures c !in s
  {
  }

  /** The text of a scope value with the given action words. */
  function TextOf(s: Scope, words: seq<string>): string {
    ResourceRepository + ":" + s.name + ":" + Join(words, ',')
  }

  lemma {:induction false} JoinHasNo(words: seq<string>, sep: char, c: char)
    requires c != sep && forall word | word in words :: c !in word
    ensures c !in Join(words, sep)
  {
    if |words| > 1 {
      JoinHasNo(words[1..], sep, c);
    }
  }

  lemma {:induction false} JoinIsLong(words: seq<string>, sep: char)
    requires words != [] && forall word | word in words :: word != ""
    ensures Join(words, sep) != ""
  {
    assert words[0] in words;
  }

  lemma ColonsIn(value: string, name: string, rest: string)
    requires value == ResourceRepository + ":" + name + ":" + rest
    requires ':' !in rest
    ensures IndexOf(value, ':') == 10 && LastIndexOf(value, ':') == 11 + |name|
    ensures value[..10] == ResourceRepository
    ensures value[11..11 + |name|] == name && value[12 + |name|..] == rest
  {
    var i, last := IndexOf(value, ':'), 11 + |name|;
    assert value[10] == ':' && value[last] == ':';
    assert forall j | 0 <= j < 10 :: value[j] == ResourceRepository[j];
    assert forall j | last < j < |value| :: value[j] == rest[j - last - 1];
    assert value[..10] == ResourceRepository;
  }

  lemma SplitName(s: Scope)
    requires WellFormed(s)
    ensures Split(s.name, '/') == [s.namespace, s.repository]
  {
    NameHasNo(s.namespace, '/');
    NameHasNo(s.repository, '/');
    hide ValidName, Ordered, Members, Split;
    assert s.name == s.namespace + ['/'] + s.repository;
    SplitFirst(s.namespace, s.repository, '/');
    SplitWhole(s.repository, '/');
  }

  lemma PartsOfText(s: Scope, words: seq<string>)
    requires WellFormed(s) && words != [] && AllActions(words)
    requires |TextOf(s, words)| <= MaxScopeBytes
    ensures NameParts(TextOf(s, words)) == Some([s.namespace, s.repository])
    ensures ActionParts(TextOf(s, words)) == words
  {
    hide IndexOf, LastIndexOf, Split, Join, ValidName, Ordered, Members;
    var value, rest := TextOf(s, words), Join(words, ',');
    assert s.name != "" && ValidName(s.namespace) && ValidName(s.repository);
    SplitName(s);
    hide WellFormed;
    JoinHasNo(words, ',', ':');
    JoinIsLong(words, ',');
    ColonsIn(value, s.name, rest);
    SplitOfJoin(words, ',');
    hide TextOf, AllActions;
  }

  /** Every text of a well-formed scope parses to it, in whatever order its actions are named. */
  lemma ParseOfText(s: Scope, words: seq<string>)
    requires WellFormed(s) && words != [] && AllActions(words)
    requires ActionsIn(words) == Members(s.actions) && |TextOf(s, words)| <= MaxScopeBytes
    ensures ScopeOf(TextOf(s, words)) == Some(s)
  {
    PartsOfText(s, words);
    hide NameParts, ActionParts, ValidName, Ordered, ActionsIn, TextOf, Members, AllActions;
  }

  lemma TextOfParts(value: string)
    requires NameParts(value).Some?
    ensures var parts := NameParts(value).value;
            |parts| == 2 && ValidName(parts[0]) && ValidName(parts[1])
            && value == ResourceRepository + ":" + (parts[0] + "/" + parts[1]) + ":"
                        + Join(ActionParts(value), ',')
    ensures ActionParts(value) != [] && |value| <= MaxScopeBytes
  {
    var first, last := IndexOf(value, ':'), LastIndexOf(value, ':');
    var parts := NameParts(value).value;
    var name, rest := value[first + 1..last], value[last + 1..];
    JoinOfSplit(name, '/');
    JoinOfSplit(rest, ',');
    hide Split, ValidName;
    assert parts == [parts[0], parts[1]];
    assert name == parts[0] + "/" + parts[1] by {
      assert Join(parts, '/') == parts[0] + ['/'] + Join(parts[1..], '/');
    }
    assert value == value[..first] + [':'] + name + [':'] + rest;
  }

  /** What the parser accepts is a text of the scope it returns, which is well formed. */
  lemma TextOfParsed(value: string)
    requires ScopeOf(value).Some?
    ensures WellFormed(ScopeOf(value).value)
    ensures AllActions(ActionParts(value)) && ActionParts(value) != []
    ensures ActionsIn(ActionParts(value)) == Members(ScopeOf(value).value.actions)
    ensures value == TextOf(ScopeOf(value).value, ActionParts(value)) && |value| <= MaxScopeBytes
  {
    var words := ActionParts(value);
    TextOfParts(value);
    OrderedMembers(ActionsIn(words));
    assert words[0] in words && ActionOf(words[0]).value in ActionsIn(words);
    hide NameParts, ActionParts, Ordered, ActionsIn, Members, ValidName, Join;
  }

  /** The value names the scope and, in any order and number, its actions. */
  predicate IsTextOf(value: string, s: Scope, words: seq<string>) {
    words != [] && AllActions(words) && ActionsIn(words) == Members(s.actions) && value == TextOf(s, words)
  }

  /** A value is accepted as a scope exactly when it is one of that scope's texts. */
  lemma ParsesIff(value: string, s: Scope)
    ensures ScopeOf(value) == Some(s)
       <==> WellFormed(s) && |value| <= MaxScopeBytes
            && (exists words :: IsTextOf(value, s, words))
  {
    hide WellFormed, ActionsIn, Members, TextOf;
    if ScopeOf(value) == Some(s) {
      TextOfParsed(value);
      assert IsTextOf(value, s, ActionParts(value));
    }
    forall words | WellFormed(s) && |value| <= MaxScopeBytes && IsTextOf(value, s, words)
      ensures ScopeOf(value) == Some(s)
    {
      ParseOfText(s, words);
    }
  }

  // Printing

  function Words(actions: seq<Action>): seq<string> {
    seq(|actions|, i requires 0 <= i < |actions| => actions[i].Name())
  }

  function Print(s: Scope): string {
    TextOf(s, Words(s.actions))
  }

  lemma WordsAreActions(actions: seq<Action>)
    ensures AllActions(Words(actions)) && ActionsIn(Words(actions)) == Members(actions)
  {
    var words := Words(actions);
    forall action | action in actions ensures action in ActionsIn(words) {
      var i :| 0 <= i < |actions| && actions[i] == action;
      assert words[i] in words && ActionOf(words[i]) == Some(action);
    }
  }

  lemma PrintedLength(s: Scope)
    requires WellFormed(s)
    ensures |Print(s)| == 12 + |s.name| + |Join(Words(s.actions), ',')| <= 157
  {
    var actions := Members(s.actions);
    assert |Join(Words(Ordered(actions)), ',')| <= 16 by {
      OrderedLength(Pull in actions, Push in actions, Delete in actions, actions);
    }
  }

  lemma OrderedLength(pull: bool, push: bool, delete: bool, actions: set<Action>)
    requires pull == (Pull in actions) && push == (Push in actions) && delete == (Delete in actions)
    ensures |Join(Words(Ordered(actions)), ',')| <= 16
  {
    var words := Words(Ordered(actions));
    if |words| > 1 {
      assert Join(words, ',') == words[0] + [','] + Join(words[1..], ',');
      if |words| > 2 {
        assert Join(words[1..], ',') == words[1] + [','] + Join(words[2..], ',');
        assert words[1..][1..] == words[2..];
      }
    }
  }

  /** A well-formed scope survives printing and parsing. */
  lemma ParseOfPrint(s: Scope)
    requires WellFormed(s)
    ensures |Print(s)| <= 157 && ScopeOf(Print(s)) == Some(s)
  {
    PrintedLength(s);
    WordsAreActions(s.actions);
    ParseOfText(s, Words(s.actions));
  }

  // Lists of scopes

  predicate Increasing(names: seq<string>) {
    forall i, j | 0 <= i < j < |names| :: Less(names[i], names[j])
  }

  function NamesOf(scopes: seq<Scope>): seq<string> {
    seq(|scopes|, i requires 0 <= i < |scopes| => scopes[i].name)
  }

  /** A merged list: well-formed scopes with strictly increasing names. */
  predicate Canonical(scopes: seq<Scope>) {
    (forall s | s in scopes :: WellFormed(s)) && Increasing(NamesOf(scopes))
  }

  /** The name and action pairs that a list of scopes grants. */
  function Meaning(scopes: seq<Scope>): set<(string, Action)> {
    set s, action | s in scopes && action in s.actions :: (s.name, action)
  }

  function MeaningOf(s: Scope): set<(string, Action)> {
    set action | action in s.actions :: (s.name, action)
  }

  /** The name and action pairs that a list of values asks for. */
  function Requests(values: seq<string>): set<(string, Action)> {
    set value, action | value in values && ScopeOf(value).Some? && action in ScopeOf(value).value.actions
      :: (ScopeOf(value).value.name, action)
  }

  predicate AllParse(values: seq<string>) {
    forall value | value in values :: ScopeOf(value).Some?
  }

  // Inserting a name in order, as sorting does

  function Insert(name: string, names: seq<string>): seq<string> {
    if names == [] || Less(name, names[0]) then [name] + names
    else [names[0]] + Insert(name, names[1..])
  }

  lemma {:induction false} InsertKeepsOrder(name: string, names: seq<string>)
    requires Increasing(names) && name !in names
    ensures Increasing(Insert(name, names))
    ensures forall other :: other in Insert(name, names) <==> other == name || other in names
  {
    if names != [] && !Less(name, names[0]) {
      LessIsTotal(name, names[0]);
      InsertKeepsOrder(name, names[1..]);
      var rest := Insert(name, names[1..]);
      assert names == [names[0]] + names[1..];
      forall j | 0 <= j < |rest| ensures Less(names[0], rest[j]) {
        assert rest[j] == name || rest[j] in names[1..];
      }
    } else if names != [] {
      forall j | 0 <= j < |names| ensures Less(name, names[j]) {
        if j > 0 {
          LessIsTransitive(name, names[0], names[j]);
        }
      }
    }
  }

  /** The keys of a map, in whatever order they come, sorted. */
  method SortedNames(keys: set<string>) returns (names: seq<string>)
    ensures Increasing(names)
    ensures forall name :: name in names <==> name in keys
  {
    names := [];
    var rest := keys;
    while rest != {}
      invariant rest <= keys && Increasing(names)
      invariant forall name :: name in names <==> name in keys - rest
    {
      var name :| name in rest;
      InsertKeepsOrder(name, names);
      names, rest := Insert(name, names), rest - {name};
    }
  }

  /** The pairs of a map from names to actions. */
  function Pairs(merged: map<string, set<Action>>): set<(string, Action)> {
    set name, action | name in merged && action in merged[name] :: (name, action)
  }

  lemma RequestsWithNext(values: seq<string>, i: nat)
    requires i < |values| && ScopeOf(values[i]).Some?
    ensures Requests(values[..i + 1]) == Requests(values[..i]) + MeaningOf(ScopeOf(values[i]).value)
  {
    hide ScopeOf;
    assert values[..i + 1] == values[..i] + [values[i]];
  }

  lemma PairsWithMore(merged: map<string, set<Action>>, s: Scope)
    ensures var had := if s.name in merged then merged[s.name] else {};
            Pairs(merged[s.name := had + Members(s.actions)]) == Pairs(merged) + MeaningOf(s)
  {
  }

  /** The name and parts that a map entry holds. */
  predicate EntryOk(name: string, actions: set<Action>, parts: (string, string)) {
    actions != {} && ValidName(parts.0) && ValidName(parts.1) && name == parts.0 + "/" + parts.1
  }

  function ScopeFor(name: string, actions: set<Action>, parts: (string, string)): Scope {
    Scope(ResourceRepository, name, parts.0, parts.1, Ordered(actions))
  }

  lemma ScopeForIsWellFormed(name: string, actions: set<Action>, parts: (string, string))
    requires EntryOk(name, actions, parts)
    ensures WellFormed(ScopeFor(name, actions, parts))
    ensures Members(ScopeFor(name, actions, parts).actions) == actions
  {
    OrderedMembers(actions);
  }

  /** Every entry of the map and the name parts beside it. */
  predicate EntriesOk(merged: map<string, set<Action>>, partsByName: map<string, (string, string)>) {
    merged.Keys == partsByName.Keys
    && forall name | name in merged :: EntryOk(name, merged[name], partsByName[name])
  }

  lemma EntriesWithMore(
      merged: map<string, set<Action>>, partsByName: map<string, (string, string)>, s: Scope)
    requires EntriesOk(merged, partsByName) && WellFormed(s)
    ensures var had := if s.name in merged then merged[s.name] else {};
            EntriesOk(merged[s.name := had + Members(s.actions)],
                      if s.name in merged then partsByName
                      else partsByName[s.name := (s.namespace, s.repository)])
  {
    assert s.actions[0] in Members(s.actions);
  }

  /** ParseScopes: None is the error for a malformed value or for too many of them. */
  method ParseScopes(values: seq<string>) returns (r: Option<seq<Scope>>)
    ensures r.Some? <==> |values| <= MaxScopes && AllParse(values)
    ensures r.Some? ==> Canonical(r.value) && Meaning(r.value) == Requests(values)
  {
    if |values| > MaxScopes {
      return None;
    }
    hide ScopeOf, WellFormed, EntriesOk, Pairs, Requests, MeaningOf, Meaning, Members, Increasing;
    var merged, partsByName, ok := MergeScopes(values);
    if !ok {
      return None;
    }
    var result := CollectScopes(merged, partsByName);
    r := Some(result);
  }

  /** The actions asked for by name, and the two parts of each name. */
  method MergeScopes(values: seq<string>)
    returns (merged: map<string, set<Action>>, partsByName: map<string, (string, string)>, ok: bool)
    ensures ok <==> AllParse(values)
    ensures EntriesOk(merged, partsByName) && (ok ==> Pairs(merged) == Requests(values))
  {
    hide *;
    NothingYet();
    merged, partsByName := map[], map[];
    for i := 0 to |values|
      invariant AllParse(values[..i])
      invariant EntriesOk(merged, partsByName) && Pairs(merged) == Requests(values[..i])
    {
      AllParseWithNext(values, i);
      var parsed := ParseScope(values[i]);
      if parsed.None? {
        return merged, partsByName, false;
      }
      var scope := parsed.value;
      TextOfParsed(values[i]);
      RequestsWithNext(values, i);
      PairsWithMore(merged, scope);
      EntriesWithMore(merged, partsByName, scope);
      var actions: set<Action> := {};
      if scope.name in merged {
        actions := merged[scope.name];
      } else {
        partsByName := partsByName[scope.name := (scope.namespace, scope.repository)];
      }
      merged := merged[scope.name := actions + Members(scope.actions)];
    }
    assert values[..|values|] == values;
    ok := true;
  }

  lemma AllParseWithNext(values: seq<string>, i: nat)
    requires i < |values|
    ensures AllParse(values[..i + 1]) <==> AllParse(values[..i]) && ScopeOf(values[i]).Some?
    ensures ScopeOf(values[i]).None? ==> !AllParse(values)
  {
    hide ScopeOf;
    assert values[..i + 1] == values[..i] + [values[i]];
  }

  lemma NothingYet()
    ensures EntriesOk(map[], map[]) && Pairs(map[]) == {} == Requests([]) && AllParse([])
  {
  }

  /** The merged entries as scopes, by name. */
  method CollectScopes(merged: map<string, set<Action>>, partsByName: map<string, (string, string)>)
    returns (result: seq<Scope>)
    requires EntriesOk(merged, partsByName)
    ensures Canonical(result) && Meaning(result) == Pairs(merged)
  {
    var names := SortedNames(merged.Keys);
    result := [];
    for i := 0 to |names|
      invariant |result| == i
      invariant forall k | 0 <= k < i ::
                  result[k] == ScopeFor(names[k], merged[names[k]], partsByName[names[k]])
    {
      var actions := OrderedActions(merged[names[i]]);
      var parts := partsByName[names[i]];
      result := result + [Scope(ResourceRepository, names[i], parts.0, parts.1, actions)];
    }
    CollectedIsCanonical(merged, partsByName, names, result);
  }

  lemma CollectedIsCanonical(
      merged: map<string, set<Action>>, partsByName: map<string, (string, string)>,
      names: seq<string>, result: seq<Scope>)
    requires EntriesOk(merged, partsByName)
    requires Increasing(names) && forall name :: name in names <==> name in merged
    requires |result| == |names|
    requires forall k | 0 <= k < |names| ::
               result[k] == ScopeFor(names[k], merged[names[k]], partsByName[names[k]])
    ensures Canonical(result) && Meaning(result) == Pairs(merged)
  {
    hide WellFormed, EntryOk, Less;
    forall k | 0 <= k < |result|
      ensures WellFormed(result[k]) && Members(result[k].actions) == merged[names[k]]
    {
      assert names[k] in merged;
      ScopeForIsWellFormed(names[k], merged[names[k]], partsByName[names[k]]);
    }
    assert NamesOf(result) == names;
    forall name, action ensures (name, action) in Meaning(result) <==> (name, action) in Pairs(merged) {
      if (name, action) in Pairs(merged) {
        var k :| 0 <= k < |names| && names[k] == name;
        assert result[k] in result && action in Members(result[k].actions);
      }
      if (name, action) in Meaning(result) {
        var s :| s in result && s.name == name && action in s.actions;
        var k :| 0 <= k < |result| && result[k] == s;
        assert action in Members(result[k].actions);
      }
    }
  }

  // The result is fixed by what is asked for

  lemma {:induction false} IncreasingIsUnique(names: seq<string>, names': seq<string>)
    requires Increasing(names) && Increasing(names')
    requires forall name :: name in names <==> name in names'
    ensures names == names'
  {
    assert names != [] ==> names[0] in names';
    assert names' != [] ==> names'[0] in names;
    if names != [] {
      FirstIsLeast(names, names'[0]);
      FirstIsLeast(names', names[0]);
      LessIsTotal(names[0], names'[0]);
      TailWithout(names);
      TailWithout(names');
      IncreasingIsUnique(names[1..], names'[1..]);
      assert names == [names[0]] + names[1..] && names' == [names'[0]] + names'[1..];
    }
  }

  lemma FirstIsLeast(names: seq<string>, name: string)
    requires Increasing(names) && name in names
    ensures name == names[0] || Less(names[0], name)
  {
    var k :| 0 <= k < |names| && names[k] == name;
  }

  lemma TailWithout(names: seq<string>)
    requires Increasing(names) && names != []
    ensures Increasing(names[1..])
    ensures forall name :: name in names[1..] <==> name in names && name != names[0]
  {
    assert names == [names[0]] + names[1..];
    forall name | name in names[1..] ensures name != names[0] {
      LessIsTotal(names[0], names[0]);
      var k :| 0 <= k < |names[1..]| && names[1..][k] == name;
      assert Less(names[0], names[k + 1]);
    }
  }

  lemma NamesInMeaning(scopes: seq<Scope>, name: string)
    requires Canonical(scopes)
    ensures name in NamesOf(scopes) <==> exists action :: (name, action) in Meaning(scopes)
  {
    hide ValidName, Ordered, Increasing;
    if name in NamesOf(scopes) {
      var k :| 0 <= k < |scopes| && NamesOf(scopes)[k] == name;
      assert scopes[k] in scopes && scopes[k].actions[0] in scopes[k].actions;
      assert (name, scopes[k].actions[0]) in Meaning(scopes);
    }
    forall action | (name, action) in Meaning(scopes) ensures name in NamesOf(scopes) {
      var s :| s in scopes && s.name == name;
      var k :| 0 <= k < |scopes| && scopes[k] == s;
      assert NamesOf(scopes)[k] == name;
    }
  }

  lemma ActionsInMeaning(scopes: seq<Scope>, k: nat, action: Action)
    requires Canonical(scopes) && k < |scopes|
    ensures (scopes[k].name, action) in Meaning(scopes) <==> action in Members(scopes[k].actions)
  {
    hide WellFormed, Less;
    if (scopes[k].name, action) in Meaning(scopes) {
      var s :| s in scopes && s.name == scopes[k].name && action in s.actions;
      var j :| 0 <= j < |scopes| && scopes[j] == s;
      assert NamesOf(scopes)[j] == NamesOf(scopes)[k];
      LessIsTotal(s.name, s.name);
    }
  }

  lemma SameParts(s: Scope, s': Scope)
    requires WellFormed(s) && WellFormed(s') && s.name == s'.name
    ensures s.namespace == s'.namespace && s.repository == s'.repository
  {
    SplitName(s);
    SplitName(s');
    hide Split, ValidName, Ordered, Members;
  }

  /** Two canonical lists that grant the same are the same list. */
  lemma CanonicalIsUnique(scopes: seq<Scope>, scopes': seq<Scope>)
    requires Canonical(scopes) && Canonical(scopes') && Meaning(scopes) == Meaning(scopes')
    ensures scopes == scopes'
  {
    forall name ensures name in NamesOf(scopes) <==> name in NamesOf(scopes') {
      NamesInMeaning(scopes, name);
      NamesInMeaning(scopes', name);
    }
    IncreasingIsUnique(NamesOf(scopes), NamesOf(scopes'));
    forall k | 0 <= k < |scopes| ensures scopes[k] == scopes'[k] {
      assert NamesOf(scopes)[k] == NamesOf(scopes')[k];
      SameScope(scopes, scopes', k);
    }
  }

  lemma SameScope(scopes: seq<Scope>, scopes': seq<Scope>, k: nat)
    requires Canonical(scopes) && Canonical(scopes') && Meaning(scopes) == Meaning(scopes')
    requires k < |scopes| == |scopes'| && scopes[k].name == scopes'[k].name
    ensures scopes[k] == scopes'[k]
  {
    forall action ensures action in Members(scopes[k].actions) <==> action in Members(scopes'[k].actions) {
      ActionsInMeaning(scopes, k, action);
      ActionsInMeaning(scopes', k, action);
    }
    assert Members(scopes[k].actions) == Members(scopes'[k].actions);
    assert scopes[k] in scopes && scopes'[k] in scopes';
    hide Members, Ordered, ValidName;
    SameParts(scopes[k], scopes'[k]);
  }

  /** What a list of values may be parsed as. */
  predicate Parses(values: seq<string>, scopes: seq<Scope>) {
    |values| <= MaxScopes && AllParse(values)
    && Canonical(scopes) && Meaning(scopes) == Requests(values)
  }

  /**
   The order and the repetition of values and of actions do not matter: lists that ask for the
   same pairs are parsed as one and the same list of scopes.
   */
  lemma OnlyRequestsMatter(values: seq<string>, values': seq<string>, scopes: seq<Scope>, scopes': seq<Scope>)
    requires Parses(values, scopes) && Parses(values', scopes')
    ensures Requests(values) == Requests(values') <==> scopes == scopes'
  {
    if Requests(values) == Requests(values') {
      CanonicalIsUnique(scopes, scopes');
    }
  }

  /** Lists with the same values, in any order and number, are both parsed or both refused. */
  lemma SameValuesSameScopes(values: seq<string>, values': seq<string>, scopes: seq<Scope>)
    requires |values| <= MaxScopes && |values'| <= MaxScopes
    requires forall value :: value in values <==> value in values'
    ensures Parses(values, scopes) <==> Parses(values', scopes)
  {
    hide ScopeOf, Canonical, Meaning;
    assert Requests(values) == Requests(values');
  }

  /** Each scope of a parsed list asks for what all the values of its name ask for together. */
  lemma ActionsAreUnion(values: seq<string>, scopes: seq<Scope>, k: nat, action: Action)
    requires Parses(values, scopes) && k < |scopes|
    ensures action in Members(scopes[k].actions)
       <==> exists value :: value in values && ScopeOf(value).value.name == scopes[k].name
                            && action in ScopeOf(value).value.actions
  {
    ActionsInMeaning(scopes, k, action);
    hide ScopeOf, Canonical;
  }

  function PrintAll(scopes: seq<Scope>): seq<string> {
    seq(|scopes|, i requires 0 <= i < |scopes| => Print(scopes[i]))
  }

  /** Printing a canonical list and parsing it again is the identity. */
  lemma ReparseOfPrint(scopes: seq<Scope>)
    requires Canonical(scopes) && |scopes| <= MaxScopes
    ensures Parses(PrintAll(scopes), scopes)
    ensures forall again | Parses(PrintAll(scopes), again) :: again == scopes
  {
    var values := PrintAll(scopes);
    forall k | 0 <= k < |scopes| ensures ScopeOf(values[k]) == Some(scopes[k]) {
      assert scopes[k] in scopes;
      ParseOfPrint(scopes[k]);
    }
    hide ScopeOf, Print, WellFormed;
    assert AllParse(values);
    assert Meaning(scopes) == Requests(values) by {
      forall s, action | s in scopes && action in s.actions ensures (s.name, action) in Requests(values) {
        var k :| 0 <= k < |scopes| && scopes[k] == s;
        assert values[k] in values;
      }
      forall value, action | value in values && action in ScopeOf(value).value.actions
        ensures (ScopeOf(value).value.name, action) in Meaning(scopes)
      {
        var k :| 0 <= k < |values| && values[k] == value;
        assert scopes[k] in scopes;
      }
    }
    forall again | Parses(values, again) ensures again == scopes {
      CanonicalIsUnique(again, scopes);
    }
  }

  function NameSet(names: seq<string>): set<string> {
    set name | name in names
  }

  lemma {:induction false} DistinctNames(names: seq<string>)
    requires Increasing(names)
    ensures |NameSet(names)| == |names|
  {
    if names != [] {
      TailWithout(names);
      DistinctNames(names[1..]);
      assert NameSet(names) == NameSet(names[1..]) + {names[0]};
    }
  }

  function NamesAsked(values: seq<string>): (names: set<string>)
    ensures |names| <= |values|
  {
    if values == [] then {}
    else
      var last := |values| - 1;
      NamesAsked(values[..last])
      + if ScopeOf(values[last]).Some? then {ScopeOf(values[last]).value.name} else {}
  }

  lemma {:induction false} AskedName(values: seq<string>, name: string, action: Action)
    requires (name, action) in Requests(values)
    ensures name in NamesAsked(values)
  {
    var last := |values| - 1;
    assert values == values[..last] + [values[last]];
    if !(ScopeOf(values[last]).Some? && ScopeOf(values[last]).value.name == name) {
      AskedName(values[..last], name, action);
    }
  }

  /** Merging never lengthens a request, so its result can be printed and parsed again. */
  lemma MergedIsShort(values: seq<string>, scopes: seq<Scope>)
    requires Parses(values, scopes)
    ensures |scopes| <= |values|
  {
    var named := NameSet(NamesOf(scopes));
    DistinctNames(NamesOf(scopes));
    forall name | name in named ensures name in NamesAsked(values) {
      NamesInMeaning(scopes, name);
      var action :| (name, action) in Meaning(scopes);
      AskedName(values, name, action);
    }
    SubsetSize(named, NamesAsked(values));
  }

  /** Whatever was parsed is parsed again, to itself, from its printed values. */
  lemma ParsedSurvivesPrinting(values: seq<string>, scopes: seq<Scope>)
    requires Parses(values, scopes)
    ensures Parses(PrintAll(scopes), scopes)
    ensures forall again | Parses(PrintAll(scopes), again) :: again == scopes
  {
    MergedIsShort(values, scopes);
    ReparseOfPrint(scopes);
  }

  // The words themselves

  /** The action words are these three, and no other text is one. */
  lemma ActionWords(s: string)
    ensures ActionOf(s) == Some(Pull) <==> s == "pull"
    ensures ActionOf(s) == Some(Push) <==> s == "push"
    ensures ActionOf(s) == Some(Delete) <==> s == "delete"
    ensures Pull.Name() == "pull" && Push.Name() == "push" && Delete.Name() == "delete"
  {
    assert "pull"[2] != "push"[2] && |"delete"| == 6;
  }

  /** Ordered actions never repeat, and come in the order pull, push, delete. */
  lemma OrderIs(actions: set<Action>, i: nat, j: nat)
    requires i < j < |Ordered(actions)|
    ensures (Ordered(actions)[i] == Pull && Ordered(actions)[j] == Push)
            || (Ordered(actions)[i] == Pull && Ordered(actions)[j] == Delete)
            || (Ordered(actions)[i] == Push && Ordered(actions)[j] == Delete)
  {
  }

  lemma ThreeWords()
    ensures var words := ["push", "pull", "push"];
            AllActions(words) && ActionsIn(words) == {Pull, Push} && Join(words, ',') == "push,pull,push"
  {
    var words := ["push", "pull", "push"];
    ActionWords("push");
    ActionWords("pull");
    hide ActionOf;
    assert words[0] == "push" && words[1] == "pull";
    assert words[1..] == ["pull", "push"] && words[1..][1..] == ["push"];
    assert Join(words[1..], ',') == "pull,push";
  }

  /** A value such as "repository:team/app:push,pull,push" is read as its parts and its two actions. */
  lemma ReadsParts(namespace: string, repository: string)
    requires IsName(namespace) && |namespace| <= 64 && IsName(repository) && |repository| <= 64
    ensures ScopeOf("repository:" + (namespace + "/" + repository) + ":push,pull,push")
         == Some(Scope("repository", namespace + "/" + repository, namespace, repository, [Pull, Push]))
  {
    var s := Scope("repository", namespace + "/" + repository, namespace, repository, [Pull, Push]);
    ThreeWords();
    assert WellFormed(s) && Members(s.actions) == {Pull, Push};
    hide IsName, ActionOf, AllActions, ActionsIn, Join, WellFormed, ScopeOf, Members;
    TextWithThreeWords(s);
    hide TextOf;
    ParseOfText(s, ["push", "pull", "push"]);
  }

  lemma TextWithThreeWords(s: Scope)
    ensures TextOf(s, ["push", "pull", "push"]) == "repository:" + s.name + ":push,pull,push"
    ensures |TextOf(s, ["push", "pull", "push"])| == |s.name| + 26
  {
    ThreeWords();
    hide Join;
    assert TextOf(s, ["push", "pull", "push"]) == "repository" + ":" + s.name + ":" + "push,pull,push";
  }
}
