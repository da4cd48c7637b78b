/** The browser-side prefix cache of the pre-initializer
    (assets/javascripts/discourse-rank-on-names/pre-initializers/rank-on-names.js):
    a module-level object from lowercased usernames to rank prefixes, filled
    from user and post records by `rememberPrefix` and read by the
    `formatUsername` hook. */
module ClientPrefixCache {
  import opened Common
  import opened JsValues

  /** The values `rememberPrefix` is documented to take: a string, `null` or
      `undefined`. */
  predicate StringOrNullish(v: JsValue) {
    v.Str? || Nullish(v)
  }

  /** The cache key of a username: `username.toLowerCase()`. */
  function KeyOf(username: string): (k: string)
    ensures |k| == |username| && Lower(k) == k
  {
    LowerIdempotent(username);
    Lower(username)
  }

  /** What every reachable cache holds: non-empty prefixes under lowercased keys. */
  ghost predicate WellFormed(m: map<string, string>) {
    forall k :: k in m ==> m[k] != "" && Lower(k) == k
  }

  /** The cache after `rememberPrefix(username, prefix)`. */
  function Remembered(m: map<string, string>, username: JsValue, prefix: JsValue): (r: map<string, string>)
    requires StringOrNullish(username) && StringOrNullish(prefix)
    // an empty or missing username, or an undefined prefix, changes nothing
    ensures !Truthy(username) || prefix.Undefined? ==> r == m
    // otherwise only the username's lowercased key changes ...
    ensures Truthy(username) ==>
      forall k :: k != KeyOf(username.s) ==> (k in r <==> k in m) && (k in r ==> r[k] == m[k])
    // ... and holds the prefix when it is a non-empty string, and nothing when it is `null` or ""
    ensures Truthy(username) && Truthy(prefix) ==> KeyOf(username.s) in r && r[KeyOf(username.s)] == prefix.s
    ensures Truthy(username) && (prefix.Null? || prefix == Str("")) ==> KeyOf(username.s) !in r
    ensures WellFormed(m) ==> WellFormed(r)
  {
    if !Truthy(username) then m
    else
      var key := KeyOf(username.s);
      if prefix.Undefined? then m
      else if Truthy(prefix) then m[key := prefix.s]
      else m - {key}
  }

  /** `lookupPrefix(username)`: `None` stands for `undefined`. */
  function LookupIn(m: map<string, string>, username: string): (r: Option<string>)
    ensures username == "" ==> r.None?
    ensures username != "" ==> (r.Some? <==> KeyOf(username) in m)
    ensures r.Some? ==> r.value == m[KeyOf(username)]
  {
    if username == "" then None
    else if KeyOf(username) in m then Some(m[KeyOf(username)])
    else None
  }

  /** The `formatUsername` hook: the prefix, a space and the name when a
      prefix is cached; the bare name otherwise; "" for an empty name. */
  function FormatWith(m: map<string, string>, username: string): (r: string)
    ensures username == "" ==> r == ""
    ensures var p := LookupIn(m, username);
      username != "" && p.Some? && p.value != "" ==> r == p.value + " " + username
    ensures var p := LookupIn(m, username);
      username != "" && (p.None? || p.value == "") ==> r == username
  {
    if username == "" then ""
    else
      var p := LookupIn(m, username);
      if p.Some? && p.value != "" then p.value + " " + username else username
  }

  class PrefixCache {
    var entries: map<string, string>

    ghost predicate Valid()
      reads this
    {
      WellFormed(entries)
    }

    /** `Object.create(null)`: no entries, not even inherited ones. */
    constructor ()
      ensures Valid() && entries == map[]
    {
      entries := map[];
    }

    /** `rememberPrefix(username, prefix)`, in place. */
    method Remember(username: JsValue, prefix: JsValue)
      requires Valid() && StringOrNullish(username) && StringOrNullish(prefix)
      modifies this
      ensures Valid()
      ensures entries == Remembered(old(entries), username, prefix)
    {
      if !Truthy(username) {
        return;
      }
      var key := KeyOf(username.s);
      if prefix.Undefined? {
        return;
      }
      if Truthy(prefix) {
        entries := entries[key := prefix.s];
      } else {
        entries := entries - {key};
      }
    }

    /** `lookupPrefix(username)` on this cache: the non-empty prefix cached
        under the name's lowercase form, `undefined` for an empty or unknown name. */
    function LookupPrefix(username: string): (r: Option<string>)
      requires Valid()
      reads this
      ensures r.Some? <==> username != "" && KeyOf(username) in entries
      ensures r.Some? ==> r.value == entries[KeyOf(username)] && r.value != ""
    {
      LookupIn(entries, username)
    }

    /** The `formatUsername` hook on this cache: a known name gets its cached
        prefix and a space in front; any other name is printed as given. */
    function FormatUsername(username: string): (r: string)
      requires Valid()
      reads this
      ensures username != "" && KeyOf(username) in entries ==> r == entries[KeyOf(username)] + " " + username
      ensures username == "" || KeyOf(username) !in entries ==> r == username
    {
      FormatWith(entries, username)
    }
  }

  // ---------------------------------------------------------------------
  // Properties relating remember, lookup and the formatter
  // ---------------------------------------------------------------------

  /** Lookups ignore ASCII case: after remembering a prefix for one spelling
      of a name, every spelling that lowercases alike finds it. */
  lemma {:induction false} LookupAfterRemember(m: map<string, string>, u1: string, u2: string, p: string)
    requires u1 != "" && p != "" && Lower(u1) == Lower(u2)
    ensures LookupIn(Remembered(m, Str(u1), Str(p)), u2) == Some(p)
  {
    assert u2 != "" by { assert |u2| == |Lower(u2)| == |Lower(u1)| == |u1|; }
  }

  /** Remembering `null` or "" forgets the name in every spelling. */
  lemma LookupAfterForget(m: map<string, string>, u1: string, u2: string, p: JsValue)
    requires u1 != "" && (p.Null? || p == Str("")) && Lower(u1) == Lower(u2)
    ensures LookupIn(Remembered(m, Str(u1), p), u2).None?
  {
  }

  /** Remembering one name leaves the lookup of every name with another
      lowercase form as it was. */
  lemma LookupOfOtherNameUnchanged(m: map<string, string>, u1: JsValue, p: JsValue, u2: string)
    requires StringOrNullish(u1) && StringOrNullish(p)
    requires u1.Str? ==> Lower(u1.s) != Lower(u2)
    ensures LookupIn(Remembered(m, u1, p), u2) == LookupIn(m, u2)
  {
  }

  /** A remembered prefix shows in front of the name, whatever its case, and
      the name itself is printed as given. */
  lemma FormatAfterRemember(m: map<string, string>, u1: string, u2: string, p: string)
    requires u1 != "" && p != "" && Lower(u1) == Lower(u2)
    ensures FormatWith(Remembered(m, Str(u1), Str(p)), u2) == p + " " + u2
  {
    LookupAfterRemember(m, u1, u2, p);
  }

  /** In a well-formed cache the formatter shows every cached prefix. */
  lemma FormatShowsCachedPrefix(m: map<string, string>, username: string)
    requires WellFormed(m) && username != "" && KeyOf(username) in m
    ensures FormatWith(m, username) == m[KeyOf(username)] + " " + username
  {
  }
}
