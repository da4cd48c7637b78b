/** The server-side resolution and caching layer of the rank-on-names plugin
    (`DiscourseRankOnNames` in lib/discourse_rank_on_names.rb): which rank
    prefix a user gets, and how that answer is cached per user and
    invalidated. */
module RankOnNames {
  import opened Common
  import Decimal

  // ---------------------------------------------------------------------
  // Ruby values the resolution code receives
  // ---------------------------------------------------------------------

  /** A Hash key: the symbol `:id` and the string `"id"` are different keys. */
  datatype HashKey = Sym(name: string) | Text(name: string)

  /** The Ruby values the lookups are handed. `Record` is an ActiveRecord
      instance (a User or a Post): `methods` are the readers it responds to,
      and its `[]` reads an attribute, nil when there is none. `text` is what
      `to_s` gives for a Hash or a Record. */
  datatype Obj =
    | Nil
    | Bool(b: bool)
    | Int(n: int)
    | Str(s: string)
    | Hash(entries: map<HashKey, Obj>, text: string)
    | Record(methods: map<string, Obj>, text: string)

  datatype RubyError = TypeError | NoMethodError

  /** Ruby truthiness: everything but nil and false. */
  predicate Truthy(o: Obj) {
    !(o.Nil? || o == Bool(false))
  }

  /** Ruby's `a || b`. */
  function Or(a: Obj, b: Obj): Obj {
    if Truthy(a) then a else b
  }

  /** ActiveSupport's `blank?`. */
  predicate Blank(o: Obj) {
    match o
    case Nil => true
    case Bool(b) => !b
    case Int(_) => false
    case Str(s) => RubyBlankString(s)
    case Hash(e, _) => |e| == 0
    case Record(_, _) => false
  }

  function HashGet(e: map<HashKey, Obj>, k: HashKey): Obj {
    if k in e then e[k] else Nil
  }

  /** String interpolation `"#{o}"`, i.e. `o.to_s`. */
  function ToS(o: Obj): string {
    match o
    case Nil => ""
    case Bool(b) => if b then "true" else "false"
    case Int(n) => Decimal.IntToString(n)
    case Str(s) => s
    case Hash(_, t) => t
    case Record(_, t) => t
  }

  // ---------------------------------------------------------------------
  // Finding the user and its id
  // ---------------------------------------------------------------------

  /** `extract_user_from_basic_serializer_object`: the object's `user` when it
      has one; for anything indexable, its `:user` or `"user"` entry, or the
      object itself. Strings and Integers are indexable but raise a TypeError
      when indexed by a Symbol. */
  function ExtractUser(subject: Obj): (r: Result<Obj, RubyError>)
    ensures r.Err? <==> subject.Str? || subject.Int?
    ensures r.Err? ==> r.error == TypeError
    ensures subject.Record? && "user" in subject.methods ==> r == Ok(subject.methods["user"])
    ensures subject.Hash? && Truthy(HashGet(subject.entries, Sym("user"))) ==>
      r == Ok(HashGet(subject.entries, Sym("user")))
    ensures subject.Hash? && !Truthy(HashGet(subject.entries, Sym("user"))) ==>
      Truthy(HashGet(subject.entries, Text("user"))) ==> r == Ok(HashGet(subject.entries, Text("user")))
    ensures subject.Hash? && !Truthy(HashGet(subject.entries, Sym("user"))) ==>
      !Truthy(HashGet(subject.entries, Text("user"))) ==> r == Ok(subject)
    ensures subject.Nil? || subject.Bool? || (subject.Record? && "user" !in subject.methods) ==> r == Ok(subject)
  {
    match subject
    case Record(methods, _) =>
      if "user" in methods then Ok(methods["user"]) else Ok(subject)
    case Hash(e, _) => Ok(Or(Or(HashGet(e, Sym("user")), HashGet(e, Text("user"))), subject))
    case Str(_) => Err(TypeError)
    case Int(_) => Err(TypeError)
    case _ => Ok(subject)
  }

  /** The Hash keys `extract_user_id` tries, in order. */
  const IdKeys: seq<HashKey> := [Sym("id"), Text("id"), Sym("user_id"), Text("user_id")]

  /** `extract_user_id`: `user.id` when the object responds to `id`; for a
      Hash, `user[:id] || user["id"] || user[:user_id] || user["user_id"]`;
      nil for anything else. */
  function ExtractUserId(user: Obj): (id: Obj)
    ensures !(user.Record? || user.Hash?) ==> id == Nil
    ensures user.Record? ==> (id != Nil ==> "id" in user.methods && id == user.methods["id"])
    ensures user.Hash? && Truthy(id) ==> exists i :: 0 <= i < |IdKeys| && HashGet(user.entries, IdKeys[i]) == id
  {
    match user
    case Record(methods, _) => if "id" in methods then methods["id"] else Nil
    case Hash(e, _) =>
      assert IdKeys[0] == Sym("id") && IdKeys[1] == Text("id") && IdKeys[2] == Sym("user_id") && IdKeys[3] == Text("user_id");
      Or(HashGet(e, Sym("id")), Or(HashGet(e, Text("id")), Or(HashGet(e, Sym("user_id")), HashGet(e, Text("user_id")))))
    case _ => Nil
  }

  /** Reference reading of an `||` chain of Hash lookups: the first truthy
      value, or the last lookup's value when none is truthy. */
  function FirstTruthy(e: map<HashKey, Obj>, keys: seq<HashKey>): Obj
    requires |keys| > 0
    decreases |keys|
  {
    if |keys| == 1 then HashGet(e, keys[0])
    else if Truthy(HashGet(e, keys[0])) then HashGet(e, keys[0])
    else FirstTruthy(e, keys[1..])
  }

  /** For a Hash, the id is the first key of `IdKeys`, in that order, that
      holds a truthy value. */
  lemma ExtractUserIdHashOrder(e: map<HashKey, Obj>, text: string)
    ensures ExtractUserId(Hash(e, text)) == FirstTruthy(e, IdKeys)
    ensures forall i :: 0 <= i < |IdKeys| && Truthy(HashGet(e, IdKeys[i]))
              && (forall j :: 0 <= j < i ==> !Truthy(HashGet(e, IdKeys[j])))
              ==> ExtractUserId(Hash(e, text)) == HashGet(e, IdKeys[i])
  {
    var ks := IdKeys;
    assert ks[1..] == [Text("id"), Sym("user_id"), Text("user_id")];
    assert ks[1..][1..] == [Sym("user_id"), Text("user_id")];
    assert ks[1..][1..][1..] == [Text("user_id")];
  }

  /** A record answering `id` wins over everything, even a falsy id. */
  lemma ExtractUserIdPrefersRecordId(methods: map<string, Obj>, text: string)
    requires "id" in methods
    ensures ExtractUserId(Record(methods, text)) == methods["id"]
  {
  }

  /** The usual serializer payload `{ user: <User record> }` leads to that user's id. */
  lemma SerializerHashYieldsUserId(userRecord: map<string, Obj>, userText: string, hashText: string, id: int)
    requires userRecord == map["id" := Int(id)]
    ensures ExtractUser(Hash(map[Sym("user") := Record(userRecord, userText)], hashText)) == Ok(Record(userRecord, userText))
    ensures ExtractUserId(Record(userRecord, userText)) == Int(id)
    ensures !Blank(ExtractUserId(Record(userRecord, userText)))
  {
  }

  // ---------------------------------------------------------------------
  // Cache keys
  // ---------------------------------------------------------------------

  const Namespace: string := "rank_on_names:prefix"

  /** Every key the plugin owns begins with this; `clear_cache!` scans for it. */
  const NamespacePrefix: string := Namespace + ":"

  predicate InNamespace(k: string) {
    StartsWith(k, NamespacePrefix)
  }

  /** `cache_key(user_id)`. */
  function CacheKey(id: Obj): (k: string)
    ensures k == NamespacePrefix + ToS(id)
    ensures InNamespace(k)
  {
    assert (NamespacePrefix + ToS(id))[..|NamespacePrefix|] == NamespacePrefix;
    NamespacePrefix + ToS(id)
  }

  /** `prefix_list_cache_key`. */
  const ListKey: string := NamespacePrefix + "list"

  lemma ListKeyInNamespace()
    ensures InNamespace(ListKey)
  {
    assert ListKey[..|NamespacePrefix|] == NamespacePrefix;
  }

  /** Distinct integer ids get distinct keys. */
  lemma CacheKeyInjectiveOnIntegers(a: int, b: int)
    requires CacheKey(Int(a)) == CacheKey(Int(b))
    ensures a == b
  {
    var p := NamespacePrefix;
    assert Decimal.IntToString(a) == CacheKey(Int(a))[|p|..];
    assert Decimal.IntToString(b) == CacheKey(Int(b))[|p|..];
    Decimal.IntToStringInjective(a, b);
  }

  /** Distinct string ids get distinct keys. */
  lemma CacheKeyInjectiveOnStrings(a: string, b: string)
    requires CacheKey(Str(a)) == CacheKey(Str(b))
    ensures a == b
  {
    assert a == CacheKey(Str(a))[|NamespacePrefix|..];
    assert b == CacheKey(Str(b))[|NamespacePrefix|..];
  }

  /** No integer id's key is the rule-list key. */
  lemma CacheKeyNeverListKeyForIntegers(n: int)
    ensures CacheKey(Int(n)) != ListKey
  {
    var s := Decimal.IntToString(n);
    var p := NamespacePrefix;
    if CacheKey(Int(n)) == ListKey {
      assert s == ListKey[|p|..] == "list";
      Decimal.IntToStringAlphabet(n, 0);
      assert false;
    }
  }

  /** Interpolation does not tell an id's type apart: the string id "5"
      shares the Integer 5's key, and the string id "list" lands on the
      rule-list key. */
  lemma CacheKeyIgnoresIdType()
    ensures CacheKey(Int(5)) == CacheKey(Str("5"))
    ensures CacheKey(Str("list")) == ListKey
  {
    assert Decimal.IntToString(5) == "5";
  }

  // ---------------------------------------------------------------------
  // Selection
  // ---------------------------------------------------------------------

  /** One row of the rule-list snapshot: `(group_name, prefix)`. */
  type Pair = (string, string)

  /** `ordered_prefixes.map(&:first)`. */
  function Names(list: seq<Pair>): (r: seq<string>)
    ensures |r| == |list|
    ensures forall i :: 0 <= i < |list| ==> r[i] == list[i].0
  {
    seq(|list|, i requires 0 <= i < |list| => list[i].0)
  }

  /** `select_prefix` over an explicit snapshot: the prefix of the first
      entry whose group is among `groupNames`. */
  function FirstMatch(list: seq<Pair>, groupNames: seq<string>): Option<string>
    decreases |list|
  {
    if |list| == 0 then None
    else if list[0].0 in groupNames then Some(list[0].1)
    else FirstMatch(list[1..], groupNames)
  }

  /** Entry `i` is the first one whose group the user is in. */
  ghost predicate FirstMatchAt(list: seq<Pair>, groupNames: seq<string>, i: int) {
    0 <= i < |list| && list[i].0 in groupNames
    && forall j :: 0 <= j < i ==> list[j].0 !in groupNames
  }

  /** The selected prefix is that of the first matching entry. */
  lemma {:induction false} FirstMatchAtIndex(list: seq<Pair>, groupNames: seq<string>, i: int)
    requires FirstMatchAt(list, groupNames, i)
    ensures FirstMatch(list, groupNames) == Some(list[i].1)
    decreases |list|
  {
    if i > 0 {
      assert list[0].0 !in groupNames;
      assert FirstMatchAt(list[1..], groupNames, i - 1) by {
        forall j | 0 <= j < i - 1 ensures list[1..][j].0 !in groupNames {
          assert list[1..][j] == list[j + 1];
        }
      }
      FirstMatchAtIndex(list[1..], groupNames, i - 1);
    }
  }

  /** Nothing is selected exactly when no entry's group is among the user's. */
  lemma {:induction false} FirstMatchNoneIff(list: seq<Pair>, groupNames: seq<string>)
    ensures FirstMatch(list, groupNames).None? <==> forall i :: 0 <= i < |list| ==> list[i].0 !in groupNames
    decreases |list|
  {
    if |list| > 0 {
      FirstMatchNoneIff(list[1..], groupNames);
      assert forall i :: 1 <= i < |list| ==> list[i] == list[1..][i - 1];
    }
  }

  /** A selected prefix comes from a first matching entry. */
  lemma {:induction false} FirstMatchSomeHasIndex(list: seq<Pair>, groupNames: seq<string>)
    requires FirstMatch(list, groupNames).Some?
    ensures exists i :: FirstMatchAt(list, groupNames, i) && list[i].1 == FirstMatch(list, groupNames).value
    decreases |list|
  {
    if list[0].0 in groupNames {
      assert FirstMatchAt(list, groupNames, 0);
    } else {
      FirstMatchSomeHasIndex(list[1..], groupNames);
      var i :| FirstMatchAt(list[1..], groupNames, i) && list[1..][i].1 == FirstMatch(list, groupNames).value;
      assert FirstMatchAt(list, groupNames, i + 1) by {
        forall j | 0 <= j < i + 1 ensures list[j].0 !in groupNames {
          if j > 0 { assert list[j] == list[1..][j - 1]; }
        }
      }
    }
  }

  /** Only membership matters: neither the order of `groupNames` nor groups
      that no entry names change the selection. */
  lemma {:induction false} FirstMatchDependsOnlyOnMembership(list: seq<Pair>, g1: seq<string>, g2: seq<string>)
    requires forall i :: 0 <= i < |list| ==> (list[i].0 in g1 <==> list[i].0 in g2)
    ensures FirstMatch(list, g1) == FirstMatch(list, g2)
    decreases |list|
  {
    if |list| > 0 {
      assert list[0].0 in g1 <==> list[0].0 in g2;
      forall i | 0 <= i < |list[1..]| ensures list[1..][i].0 in g1 <==> list[1..][i].0 in g2 {
        assert list[1..][i] == list[i + 1];
      }
      FirstMatchDependsOnlyOnMembership(list[1..], g1, g2);
    }
  }

  /** Keeps the elements of `gs` that occur in `names`, in their order: the
      membership query restricted to the groups some rule names. */
  function Filter(gs: seq<string>, names: seq<string>): (r: seq<string>)
    ensures forall g :: g in r <==> g in gs && g in names
    decreases |gs|
  {
    if |gs| == 0 then []
    else if gs[0] in names then [gs[0]] + Filter(gs[1..], names)
    else
      assert forall g :: g in gs <==> g == gs[0] || g in gs[1..];
      Filter(gs[1..], names)
  }

  /** `group_names_for_user` against a snapshot: no query at all without rules,
      otherwise the user's groups that some rule names. */
  function GroupNames(list: seq<Pair>, memberOf: Obj -> seq<string>, id: Obj): (r: seq<string>)
    ensures |list| == 0 ==> r == []
    ensures forall g :: g in r ==> g in Names(list)
  {
    if |Names(list)| == 0 then [] else Filter(memberOf(id), Names(list))
  }

  /** Restricting the user's groups to those some rule names changes nothing. */
  lemma SelectionOverRestrictedGroups(list: seq<Pair>, memberOf: Obj -> seq<string>, id: Obj)
    ensures FirstMatch(list, GroupNames(list, memberOf, id)) == FirstMatch(list, memberOf(id))
  {
    if |list| == 0 {
    } else {
      var names := Names(list);
      forall i | 0 <= i < |list|
        ensures list[i].0 in GroupNames(list, memberOf, id) <==> list[i].0 in memberOf(id)
      {
        assert list[i].0 == names[i];
      }
      FirstMatchDependsOnlyOnMembership(list, GroupNames(list, memberOf, id), memberOf(id));
    }
  }

  /** The loop of `select_prefix`: walk the entries in order, return the
      first prefix whose group is among `groupNames`. */
  method ScanPrefixes(list: seq<Pair>, groupNames: seq<string>) returns (r: Option<string>)
    ensures r == FirstMatch(list, groupNames)
  {
    var i := 0;
    while i < |list|
      invariant 0 <= i <= |list|
      invariant FirstMatch(list[i..], groupNames) == FirstMatch(list, groupNames)
    {
      assert list[i..][1..] == list[i + 1..];
      if list[i].0 in groupNames {
        return Some(list[i].1);
      }
      i := i + 1;
    }
    r := None;
  }

  // ---------------------------------------------------------------------
  // The shared cache as a value, and what each operation does to it
  // ---------------------------------------------------------------------

  /** What the shared cache holds under a key: the rule-list snapshot, a
      resolved prefix (nil is cached too), or anything other code stored. */
  datatype Entry = RuleList(pairs: seq<Pair>) | Resolved(prefix: Option<string>) | Foreign(data: string)

  /** An operation's result together with the cache it leaves behind. */
  datatype Step<T> = Step(result: T, cache: map<string, Entry>)

  /** `ordered_prefixes`: the snapshot under the list key, or, on a miss, the
      rule table. A non-list value under the key has no `map`/`each`. */
  function CachedList(m: map<string, Entry>, table: seq<Pair>): Result<seq<Pair>, RubyError> {
    if ListKey in m then
      if m[ListKey].RuleList? then Ok(m[ListKey].pairs) else Err(NoMethodError)
    else Ok(table)
  }

  /** The cache after `ordered_prefixes`: a miss stores the table. */
  function AfterListFetch(m: map<string, Entry>, table: seq<Pair>): map<string, Entry> {
    if ListKey in m then m else m[ListKey := RuleList(table)]
  }

  /** `prefix_for_user` as a function of the cache it starts from: blank id
      gives nil; a hit returns what is stored; a miss resolves against the
      current snapshot and the user's groups, and stores the answer. */
  function Lookup(m: map<string, Entry>, user: Obj, table: seq<Pair>, memberOf: Obj -> seq<string>)
    : Step<Result<Option<Entry>, RubyError>>
  {
    var id := ExtractUserId(user);
    if Blank(id) then Step(Ok(None), m)
    else
      var k := CacheKey(id);
      if k in m then Step(Ok(Some(m[k])), m)
      else
        match CachedList(m, table)
        case Err(e) => Step(Err(e), m)
        case Ok(list) =>
          var v := Resolved(FirstMatch(list, memberOf(id)));
          Step(Ok(Some(v)), AfterListFetch(m, table)[k := v])
  }

  /** How many membership queries `Lookup` issues: one, on a miss with rules. */
  function LookupQueries(m: map<string, Entry>, user: Obj, table: seq<Pair>): nat {
    var id := ExtractUserId(user);
    if Blank(id) || CacheKey(id) in m then 0
    else
      match CachedList(m, table)
      case Err(_) => 0
      case Ok(list) => if |list| == 0 then 0 else 1
  }

  /** `invalidate_user`: drop the user's key, if the user has an id. */
  function Invalidated(m: map<string, Entry>, user: Obj): map<string, Entry> {
    var id := ExtractUserId(user);
    if Blank(id) then m else m - {CacheKey(id)}
  }

  /** `clear_cache!`: every key of the namespace (the list key among them) is gone. */
  function Flushed(m: map<string, Entry>): map<string, Entry> {
    map k | k in m && !InNamespace(k) :: m[k]
  }

  // ---------------------------------------------------------------------
  // Properties of the cache protocol
  // ---------------------------------------------------------------------

  /** A user without an id resolves to nil and leaves the cache alone. */
  lemma LookupBlankId(m: map<string, Entry>, user: Obj, table: seq<Pair>, memberOf: Obj -> seq<string>)
    requires Blank(ExtractUserId(user))
    ensures Lookup(m, user, table, memberOf) == Step(Ok(None), m)
    ensures LookupQueries(m, user, table) == 0
  {
  }

  /** A hit returns the stored value, computes nothing and changes nothing. */
  lemma LookupHit(m: map<string, Entry>, user: Obj, table: seq<Pair>, memberOf: Obj -> seq<string>)
    requires !Blank(ExtractUserId(user)) && CacheKey(ExtractUserId(user)) in m
    ensures Lookup(m, user, table, memberOf) == Step(Ok(Some(m[CacheKey(ExtractUserId(user))])), m)
    ensures LookupQueries(m, user, table) == 0
  {
  }

  /** A miss stores and returns the first-match selection over the snapshot. */
  lemma LookupMissStores(m: map<string, Entry>, user: Obj, table: seq<Pair>, memberOf: Obj -> seq<string>, list: seq<Pair>)
    requires !Blank(ExtractUserId(user)) && CacheKey(ExtractUserId(user)) !in m
    requires CachedList(m, table) == Ok(list)
    ensures var s := Lookup(m, user, table, memberOf);
      var v := Resolved(FirstMatch(list, memberOf(ExtractUserId(user))));
      s.result == Ok(Some(v)) && CacheKey(ExtractUserId(user)) in s.cache && s.cache[CacheKey(ExtractUserId(user))] == v
      && ListKey in s.cache
  {
  }

  /** Asking twice with nothing deleted in between gives the same answer,
      the second time from the cache and without a membership query. */
  lemma LookupTwiceSame(m: map<string, Entry>, user: Obj, table: seq<Pair>, memberOf: Obj -> seq<string>)
    requires Lookup(m, user, table, memberOf).result.Ok?
    ensures var s := Lookup(m, user, table, memberOf);
      Lookup(s.cache, user, table, memberOf) == s
      && LookupQueries(s.cache, user, table) == 0
  {
  }

  /** Lookups never remove anything and touch at most the list key and the user's key. */
  lemma LookupOnlyAdds(m: map<string, Entry>, user: Obj, table: seq<Pair>, memberOf: Obj -> seq<string>, k: string)
    requires k in m
    requires k != CacheKey(ExtractUserId(user)) || Blank(ExtractUserId(user))
    ensures k in Lookup(m, user, table, memberOf).cache
    ensures Lookup(m, user, table, memberOf).cache[k] == m[k]
  {
  }

  /** `invalidate_user` removes exactly the user's key. */
  lemma InvalidatedRemovesOnlyUserKey(m: map<string, Entry>, user: Obj, k: string)
    ensures Blank(ExtractUserId(user)) ==> Invalidated(m, user) == m
    ensures !Blank(ExtractUserId(user)) ==> CacheKey(ExtractUserId(user)) !in Invalidated(m, user)
    ensures k in m && (Blank(ExtractUserId(user)) || k != CacheKey(ExtractUserId(user)))
      ==> k in Invalidated(m, user) && Invalidated(m, user)[k] == m[k]
    ensures k in Invalidated(m, user) ==> k in m
  {
  }

  /** After `invalidate_user` the next lookup recomputes from the current
      snapshot and the current membership, whatever was cached before. */
  lemma LookupAfterInvalidateRecomputes(m: map<string, Entry>, user: Obj, table: seq<Pair>, memberOf: Obj -> seq<string>, list: seq<Pair>)
    requires !Blank(ExtractUserId(user))
    requires CachedList(Invalidated(m, user), table) == Ok(list)
    ensures Lookup(Invalidated(m, user), user, table, memberOf).result
      == Ok(Some(Resolved(FirstMatch(list, memberOf(ExtractUserId(user))))))
  {
  }

  /** `clear_cache!` leaves no key of the namespace and keeps every other key. */
  lemma FlushedProperties(m: map<string, Entry>, k: string)
    ensures ListKey !in Flushed(m)
    ensures k in Flushed(m) ==> !InNamespace(k)
    ensures k in m && !InNamespace(k) ==> k in Flushed(m) && Flushed(m)[k] == m[k]
    ensures k in Flushed(m) ==> k in m
  {
    ListKeyInNamespace();
  }

  /** After a full flush every user with an id resolves afresh against the
      rule table itself: the edit that preceded the flush is visible. */
  lemma LookupAfterFlushUsesTable(m: map<string, Entry>, user: Obj, table: seq<Pair>, memberOf: Obj -> seq<string>)
    requires !Blank(ExtractUserId(user))
    ensures Lookup(Flushed(m), user, table, memberOf).result
      == Ok(Some(Resolved(FirstMatch(table, memberOf(ExtractUserId(user))))))
  {
    ListKeyInNamespace();
    assert CacheKey(ExtractUserId(user)) !in Flushed(m);
  }

  // ---------------------------------------------------------------------
  // The cache object
  // ---------------------------------------------------------------------

  /** `Discourse.cache` as far as this plugin uses it, with a count of the
      membership queries issued on its behalf. */
  class RankCache {
    var entries: map<string, Entry>
    ghost var membershipQueries: nat

    constructor (initial: map<string, Entry>)
      ensures entries == initial && membershipQueries == 0
    {
      entries := initial;
      membershipQueries := 0;
    }

    /** `ordered_prefixes`: cache-aside read of the rule-list snapshot;
        `table` is what `Prefix.ordered.pluck(:group_name, :prefix)` returns now. */
    method OrderedPrefixes(table: seq<Pair>) returns (r: Result<seq<Pair>, RubyError>)
      modifies this
      ensures r == CachedList(old(entries), table)
      ensures entries == AfterListFetch(old(entries), table)
      ensures membershipQueries == old(membershipQueries)
    {
      if ListKey in entries {
        var e := entries[ListKey];
        if e.RuleList? {
          r := Ok(e.pairs);
        } else {
          r := Err(NoMethodError);
        }
      } else {
        entries := entries[ListKey := RuleList(table)];
        r := Ok(table);
      }
    }

    /** `group_names_for_user`: no query when there are no rules. */
    method GroupNamesForUser(id: Obj, table: seq<Pair>, memberOf: Obj -> seq<string>)
      returns (r: Result<seq<string>, RubyError>)
      modifies this
      ensures entries == AfterListFetch(old(entries), table)
      ensures CachedList(old(entries), table).Err? ==>
        r == Err(CachedList(old(entries), table).error) && membershipQueries == old(membershipQueries)
      ensures CachedList(old(entries), table).Ok? ==>
        var list := CachedList(old(entries), table).value;
        r == Ok(GroupNames(list, memberOf, id))
        && membershipQueries == old(membershipQueries) + (if |list| == 0 then 0 else 1)
    {
      var ordered := OrderedPrefixes(table);
      if ordered.Err? {
        return Err(ordered.error);
      }
      var namesOfInterest := Names(ordered.value);
      if |namesOfInterest| == 0 {
        return Ok([]);
      }
      membershipQueries := membershipQueries + 1;
      r := Ok(Filter(memberOf(id), namesOfInterest));
    }

    /** `select_prefix`: first match over the (cached) snapshot. */
    method SelectPrefix(groupNames: seq<string>, table: seq<Pair>) returns (r: Result<Option<string>, RubyError>)
      modifies this
      ensures entries == AfterListFetch(old(entries), table)
      ensures membershipQueries == old(membershipQueries)
      ensures CachedList(old(entries), table).Err? ==> r == Err(CachedList(old(entries), table).error)
      ensures CachedList(old(entries), table).Ok? ==>
        r == Ok(FirstMatch(CachedList(old(entries), table).value, groupNames))
    {
      var ordered := OrderedPrefixes(table);
      if ordered.Err? {
        return Err(ordered.error);
      }
      var p := ScanPrefixes(ordered.value, groupNames);
      r := Ok(p);
    }

    /** `prefix_for_user`. */
    method PrefixForUser(user: Obj, table: seq<Pair>, memberOf: Obj -> seq<string>)
      returns (r: Result<Option<Entry>, RubyError>)
      modifies this
      ensures Step(r, entries) == Lookup(old(entries), user, table, memberOf)
      ensures membershipQueries == old(membershipQueries) + LookupQueries(old(entries), user, table)
    {
      var id := ExtractUserId(user);
      if Blank(id) {
        return Ok(None);
      }
      var k := CacheKey(id);
      if k in entries {
        return Ok(Some(entries[k]));
      }
      var names := GroupNamesForUser(id, table, memberOf);
      if names.Err? {
        return Err(names.error);
      }
      ghost var list := CachedList(old(entries), table).value;
      assert CachedList(entries, table) == Ok(list);
      var selected := SelectPrefix(names.value, table);
      assert selected == Ok(FirstMatch(list, GroupNames(list, memberOf, id)));
      SelectionOverRestrictedGroups(list, memberOf, id);
      var v := Resolved(selected.value);
      entries := entries[k := v];
      r := Ok(Some(v));
    }

    /** `prefix_for_basic_user`: find the user in a serializer object first. */
    method PrefixForBasicUser(subject: Obj, table: seq<Pair>, memberOf: Obj -> seq<string>)
      returns (r: Result<Option<Entry>, RubyError>)
      modifies this
      ensures ExtractUser(subject).Err? ==> r == Err(TypeError) && entries == old(entries)
      ensures ExtractUser(subject).Ok? ==>
        Step(r, entries) == Lookup(old(entries), ExtractUser(subject).value, table, memberOf)
    {
      var user := ExtractUser(subject);
      if user.Err? {
        return Err(user.error);
      }
      r := PrefixForUser(user.value, table, memberOf);
    }

    /** `prefix_for_post`: nil unless the post answers `user`. */
    method PrefixForPost(post: Obj, table: seq<Pair>, memberOf: Obj -> seq<string>)
      returns (r: Result<Option<Entry>, RubyError>)
      modifies this
      ensures !(post.Record? && "user" in post.methods) ==> r == Ok(None) && entries == old(entries)
      ensures post.Record? && "user" in post.methods ==>
        Step(r, entries) == Lookup(old(entries), post.methods["user"], table, memberOf)
    {
      if !(post.Record? && "user" in post.methods) {
        return Ok(None);
      }
      r := PrefixForUser(post.methods["user"], table, memberOf);
    }

    /** `invalidate_user`: called when the user joins or leaves a group. */
    method InvalidateUser(user: Obj)
      modifies this
      ensures entries == Invalidated(old(entries), user)
      ensures membershipQueries == old(membershipQueries)
    {
      var id := ExtractUserId(user);
      if Blank(id) {
        return;
      }
      entries := entries - {CacheKey(id)};
    }

    /** `clear_cache!`: collect the namespace's keys (and the list key), then
        delete them one by one. */
    method ClearCache()
      modifies this
      ensures entries == Flushed(old(entries))
      ensures membershipQueries == old(membershipQueries)
    {
      var keys := set k | k in entries && InNamespace(k);
      keys := keys + {ListKey};
      var pending := keys;
      ListKeyInNamespace();
      while pending != {}
        invariant pending <= keys
        invariant forall k :: k in keys ==> InNamespace(k)
        invariant membershipQueries == old(membershipQueries)
        invariant entries == map k | k in old(entries) && k !in (keys - pending) :: old(entries)[k]
        decreases pending
      {
        var k :| k in pending;
        entries := entries - {k};
        pending := pending - {k};
      }
      assert entries == Flushed(old(entries));
    }
  }
}
