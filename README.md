# rank-on-names, modelled in Dafny

The Discourse plugin *rank-on-names* puts a military rank before a forum
user's name. Administrators keep a table of **prefix rules**: a group name,
a prefix text and a position. It also keeps a table of **drop-zone flash
rules**, which tie a group to an uploaded image. The rules are kept in
order of `(position, id)`. A user's rank prefix is the prefix of the first
rule, in that order, whose group the user belongs to.

On the server, `DiscourseRankOnNames` resolves prefixes through the shared
Discourse cache. The cache holds one entry per user and one snapshot of the
ordered rule list. Every commit to either rule table flushes all of the
plugin's keys. A change of a user's groups drops that user's key.

In the browser, a pre-initializer keeps a map from lowercased usernames to
prefixes. It fills the map from user and post records, and the
`formatUsername` hook reads it to render "Prefix Name". The admin screen's
controller keeps the rule list sorted the way the server orders it. It
also keeps a draft per row and the "new rule" form, and it builds the
payloads of its save, create and delete requests.

The model has one module per concern:

- `Common`: option and result types, ASCII lowercasing, and Ruby's `blank?`.
- `Decimal`: integer-to-decimal rendering, proved injective.
- `Sorting`: a stable insertion sort by a `(major, minor)` key. The result is proved to be a sorted permutation of the input, and the only one when keys are distinct.
- `RankOnNames`: `lib/discourse_rank_on_names.rb`.
  - The shared cache is a class whose map field the methods update.
  - Spec functions describe each operation as a function of the cache it starts from.
- `RuleValidation`, `PrefixRules`, `FlashRules`: the two ActiveRecord models.
  - Each table is a class with a `rows` sequence.
  - `Create`, `Update` and `Destroy` validate, write and flush the cache.
- `JsValues`: the JavaScript values and built-ins the client code relies on.
  - Truthiness, optional chaining and spread.
  - `trim`, with ECMAScript's white-space set.
  - `parseInt(_, 10)`.
- `ClientPrefixCache`: `rememberPrefix`, `lookupPrefix` and `formatUsername`.
- `AdminRankController`: the admin list controller, as a class with the tracked fields.
- `AdminRankRoute`: the admin route's `model()` and the hand-off of its value to the controller.

Anything the code receives from the outside world is a parameter of the
operation that uses it:
- the rule table as the database returns it;
- the membership query (`memberOf`);
- `FileHelper.is_supported_image?` (`isImage`);
- the uploads that exist;
- the answer of the confirm dialog;
- the server's replies.

An action that would send a request returns that request as a value.

Two behaviours a reader might expect that the code does not have:
- No fallback table: `DEFAULT_GROUP_PREFIXES` (lib/discourse_rank_on_names.rb:4)
  is defined but never read. The prefix migration seeds its own copy of the
  defaults as rows at install time. With no prefix rules, every user
  resolves to nil (`RankOnNames.FirstMatchNoneIff`).
- No feature gate in the library: lib/discourse_rank_on_names.rb never
  checks `rank_on_names_enabled`. The `ensure_enabled!` gate lives in the
  admin HTTP controllers, which are not part of this model.

Positions are stored in 4-byte `integer` columns. A position that passes
validation but does not fit makes the save raise, and nothing is written
(`StoreError.OutOfRange`).

## Model

| member | source | states |
|---|---|---|
| Common.Lower | assets/javascripts/discourse-rank-on-names/pre-initializers/rank-on-names.js:19 | lowercasing keeps the length and maps each character by its ASCII lowercase |
| Common.LowerIdempotent | assets/javascripts/discourse-rank-on-names/pre-initializers/rank-on-names.js:19 | lowercasing twice is lowercasing once, so cache keys are already in normal form |
| Decimal.DigitsValueOfNatToString | lib/discourse_rank_on_names.rb:92 | reading back the decimal digits of a natural number gives the number |
| Decimal.NatToStringInjective | lib/discourse_rank_on_names.rb:92 | distinct natural numbers render as distinct digit strings |
| Decimal.IntToStringInjective | lib/discourse_rank_on_names.rb:92 | distinct integers (with sign) render as distinct strings |
| Decimal.IntToStringAlphabet | lib/discourse_rank_on_names.rb:92 | an integer renders only as digits and a leading minus sign |
| Sorting.SortBy | app/models/discourse_rank_on_names/prefix.rb:13 | the result is a permutation of the input, of the same length, in ascending `(position, id)` order |
| Sorting.SortBySortedIsIdentity | assets/javascripts/discourse/controllers/admin-plugins/rank-on-names.js:22-31 | sorting an already sorted list returns it unchanged, which is the stability of `Array.prototype.sort` |
| Sorting.SortedHeadIsLeast | app/models/discourse_rank_on_names/prefix.rb:13 | the head of a sorted list has a key no larger than that of any element |
| Sorting.SortedPermutationUnique | app/models/discourse_rank_on_names/prefix.rb:13 | two sorted permutations of the same rows are equal when no two rows share a key |
| RankOnNames.ExtractUser | lib/discourse_rank_on_names.rb:105-113 | a TypeError exactly for a String or Integer; an object answering `user` gives its `user`; a Hash gives its truthy `:user`, else its truthy `"user"`, else itself; anything else is itself |
| RankOnNames.ExtractUserId | lib/discourse_rank_on_names.rb:115-121 | nil for anything that is neither a record nor a Hash; a record's non-nil id is its `id`; a Hash's truthy id is the value of one of the four id keys |
| RankOnNames.ExtractUserIdHashOrder | lib/discourse_rank_on_names.rb:115-121 | for a Hash, the id is the value of the first of `:id`, `"id"`, `:user_id`, `"user_id"` that is truthy, in that order |
| RankOnNames.ExtractUserIdPrefersRecordId | lib/discourse_rank_on_names.rb:116-117 | an object answering `id` gives that id, even a falsy one |
| RankOnNames.SerializerHashYieldsUserId | lib/discourse_rank_on_names.rb:105-113 | a serializer hash `{ user: record }` yields the record, whose id is present |
| RankOnNames.CacheKey | lib/discourse_rank_on_names.rb:91-93 | the key is the namespace, a colon and the id's text, so it lies in the namespace |
| RankOnNames.ListKeyInNamespace | lib/discourse_rank_on_names.rb:101-103 | the rule-list key lies in the namespace `clear_cache!` scans |
| RankOnNames.CacheKeyInjectiveOnIntegers | lib/discourse_rank_on_names.rb:91-93 | two integer ids share a key only when they are equal |
| RankOnNames.CacheKeyInjectiveOnStrings | lib/discourse_rank_on_names.rb:91-93 | two string ids share a key only when they are equal |
| RankOnNames.CacheKeyNeverListKeyForIntegers | lib/discourse_rank_on_names.rb:91-103 | no integer id's key collides with the rule-list key |
| RankOnNames.CacheKeyIgnoresIdType | lib/discourse_rank_on_names.rb:91-93 | the string id "5" shares the key of the integer 5, and the string id "list" lands on the rule-list key |
| RankOnNames.FirstMatch | lib/discourse_rank_on_names.rb:76-82 | `select_prefix` over the ordered list; specified by the four `FirstMatch…` lemmas below and matched by the loop of `ScanPrefixes` |
| RankOnNames.FirstMatchAtIndex | lib/discourse_rank_on_names.rb:76-82 | when entry i is the first whose group the user is in, `select_prefix` returns entry i's prefix |
| RankOnNames.FirstMatchNoneIff | lib/discourse_rank_on_names.rb:76-82 | `select_prefix` returns nil exactly when no entry's group is among the user's groups |
| RankOnNames.FirstMatchSomeHasIndex | lib/discourse_rank_on_names.rb:76-82 | a returned prefix comes from the first matching entry |
| RankOnNames.FirstMatchDependsOnlyOnMembership | lib/discourse_rank_on_names.rb:76-82 | the selection depends only on which rule groups the user is in, not on the order or the extra groups of the list passed in |
| RankOnNames.GroupNames | lib/discourse_rank_on_names.rb:66-74 | with no rules the user's groups are `[]`; otherwise every returned group is named by some rule |
| RankOnNames.SelectionOverRestrictedGroups | lib/discourse_rank_on_names.rb:66-82 | restricting the membership query to groups some rule names does not change the selected prefix |
| RankOnNames.ScanPrefixes | lib/discourse_rank_on_names.rb:76-82 | the loop returns the first-match selection |
| RankOnNames.Lookup | lib/discourse_rank_on_names.rb:59-64 | `prefix_for_user` as a function of the starting cache; specified by the `Lookup…` lemmas below and implemented by `RankCache.PrefixForUser` |
| RankOnNames.Invalidated | lib/discourse_rank_on_names.rb:84-89 | the cache after `invalidate_user`; specified by `InvalidatedRemovesOnlyUserKey` and implemented by `RankCache.InvalidateUser` |
| RankOnNames.Flushed | lib/discourse_rank_on_names.rb:38-46 | the cache after `clear_cache!`; specified by `FlushedProperties` and implemented by the loop of `RankCache.ClearCache` |
| RankOnNames.LookupBlankId | lib/discourse_rank_on_names.rb:59-61 | a user without an id resolves to nil, leaves the cache alone and queries no membership |
| RankOnNames.LookupHit | lib/discourse_rank_on_names.rb:63 | a cached answer, nil included, is returned without recomputation or change |
| RankOnNames.LookupMissStores | lib/discourse_rank_on_names.rb:63 | a miss returns and stores the first match over the snapshot, and the snapshot is cached too |
| RankOnNames.LookupTwiceSame | lib/discourse_rank_on_names.rb:63 | a second lookup gives the same result and cache, with no membership query |
| RankOnNames.LookupOnlyAdds | lib/discourse_rank_on_names.rb:59-64 | a lookup keeps every other key and its value |
| RankOnNames.InvalidatedRemovesOnlyUserKey | lib/discourse_rank_on_names.rb:84-89 | `invalidate_user` removes exactly the user's key, and nothing for a user without an id |
| RankOnNames.LookupAfterInvalidateRecomputes | lib/discourse_rank_on_names.rb:84-89 | after invalidation the next lookup uses the current snapshot and current membership |
| RankOnNames.FlushedProperties | lib/discourse_rank_on_names.rb:38-46 | `clear_cache!` removes every key of the namespace, the list key included, and keeps all other keys |
| RankOnNames.LookupAfterFlushUsesTable | lib/discourse_rank_on_names.rb:38-46 | after a flush every lookup resolves against the current rule table |
| RankOnNames.RankCache.OrderedPrefixes | lib/discourse_rank_on_names.rb:95-99 | cache-aside read of the rule list: a hit returns the snapshot, a miss stores the table; a non-list value raises |
| RankOnNames.RankCache.GroupNamesForUser | lib/discourse_rank_on_names.rb:66-74 | the user's groups restricted to rule groups; exactly one membership query when there are rules and none otherwise |
| RankOnNames.RankCache.SelectPrefix | lib/discourse_rank_on_names.rb:76-82 | the first match over the cached snapshot |
| RankOnNames.RankCache.PrefixForUser | lib/discourse_rank_on_names.rb:59-64 | result and new cache are those of the `Lookup` protocol, with the number of membership queries it counts |
| RankOnNames.RankCache.PrefixForBasicUser | lib/discourse_rank_on_names.rb:48-51 | resolves the user found in a serializer object; indexing a String or Integer raises TypeError |
| RankOnNames.RankCache.PrefixForPost | lib/discourse_rank_on_names.rb:53-57 | nil without touching the cache, unless the post answers `user` |
| RankOnNames.RankCache.InvalidateUser | lib/discourse_rank_on_names.rb:84-89 | the cache becomes the one without the user's key |
| RankOnNames.RankCache.ClearCache | lib/discourse_rank_on_names.rb:38-46 | deleting the collected keys one by one leaves the flushed cache |
| RuleValidation.DefaultPosition | app/models/discourse_rank_on_names/prefix.rb:19-24 | one more than the largest position, or 1 for an empty table; specified by `DefaultPositionIsFresh` and `DefaultPositionOverflows` |
| RuleValidation.DefaultPositionOverflows | app/models/discourse_rank_on_names/prefix.rb:22-23 | when a stored position is already the column's maximum, the default position is one more and no longer fits the column |
| RuleValidation.Column | app/models/discourse_rank_on_names/prefix.rb:22 | one value per row, in row order, as `pluck`/`maximum` read a column |
| RuleValidation.MaxPosition | app/models/discourse_rank_on_names/prefix.rb:22 | the maximum position, or 0 for no rows; otherwise one of the positions and no smaller than any |
| RuleValidation.DefaultPositionIsFresh | app/models/discourse_rank_on_names/prefix.rb:19-24 | the default position exceeds every position in use, is 1 for an empty table, and is positive when all positions are |
| RuleValidation.PositionOnCreate | app/models/discourse_rank_on_names/prefix.rb:11 | a given position is kept as it is, a missing one gets the default |
| RuleValidation.PositionErrors | app/models/discourse_rank_on_names/prefix.rb:9 | no error exactly when a position is given and is greater than 0 |
| RuleValidation.GroupNameErrors | app/models/discourse_rank_on_names/prefix.rb:7 | no error exactly when the group name is present and no other row has it |
| PrefixRules.Errors | app/models/discourse_rank_on_names/prefix.rb:7-9 | a prefix rule is valid exactly when group name is present and unique, prefix is present and position is greater than 0 |
| PrefixRules.PrefixStore.constructor | app/models/discourse_rank_on_names/prefix.rb:4-5 | an empty table |
| PrefixRules.PrefixStore.Ordered | app/models/discourse_rank_on_names/prefix.rb:13 | `ordered` is a permutation of the rows in `(position, id)` order |
| PrefixRules.PrefixStore.OrderedPairs | lib/discourse_rank_on_names.rb:95-99 | the `(group_name, prefix)` pairs `ordered_prefixes` reads, in `ordered` order; it is the table `DestroyScenario` resolves against |
| PrefixRules.PrefixStore.Create | app/models/discourse_rank_on_names/prefix.rb:7-24 | position defaults, then validation; invalid attributes return the errors and change nothing; a valid position outside the 4-byte column is a range error and changes nothing; otherwise the row is appended with a fresh id and the cache is flushed |
| PrefixRules.PrefixStore.Update | app/models/discourse_rank_on_names/prefix.rb:7-15 | unknown id is not found; a patch is validated against the other rows; invalid, or valid but out of the column's range, changes nothing; otherwise it replaces the row and flushes the cache |
| PrefixRules.PrefixStore.Destroy | app/models/discourse_rank_on_names/prefix.rb:15 | removes exactly the row with the id and flushes the cache; an unknown id changes nothing |
| PrefixRules.DuplicateGroupNameRejected | app/models/discourse_rank_on_names/prefix.rb:7 | a group name another row has gives a "taken" error |
| PrefixRules.BlankFieldsRejected | app/models/discourse_rank_on_names/prefix.rb:7-8 | a blank group name or prefix gives a "blank" error |
| PrefixRules.OrderedIsTheOrdering | app/models/discourse_rank_on_names/prefix.rb:13 | with unique ids, `ordered` is the only sorted arrangement of the rows |
| PrefixRules.ResolutionNoneIff | lib/discourse_rank_on_names.rb:95-99 | resolution over `ordered` finds nothing exactly when no row names one of the user's groups |
| PrefixRules.ResolutionSomeIsLeast | lib/discourse_rank_on_names.rb:95-99 | a found prefix belongs to a matching row with the least `(position, id)` of all matching rows |
| PrefixRules.ResolutionPicksHighestPriority | lib/discourse_rank_on_names.rb:76-99 | both of the above together, whatever order the rows are stored in |
| PrefixRules.DestroyScenario | lib/discourse_rank_on_names.rb:38-89 | the destroy-then-invalidate sequence of the library spec's cache test (spec/lib/discourse_rank_on_names_spec.rb:62-68 runs it on flash rules), on prefix rules: resolve, `destroy!` the rule with the id (which flushes), invalidate the user, resolve again; each answer is the first match over the rules stored at that moment, and the destroy removes exactly that row |
| FlashRules.UploadOf | app/models/discourse_rank_on_names/drop_zone_flash.rb:7 | the upload is found exactly when the id is given and names an existing upload |
| FlashRules.IsImageUpload | app/models/discourse_rank_on_names/drop_zone_flash.rb:30-37 | the image test; specified by `ImageErrors`, `ExtensionRequired` and `ImageCheckIgnoresCase` |
| FlashRules.ImageErrors | app/models/discourse_rank_on_names/drop_zone_flash.rb:30-37 | no error without an upload or for an image upload; otherwise only "must be image" |
| FlashRules.Errors | app/models/discourse_rank_on_names/drop_zone_flash.rb:9-13 | a flash rule is valid exactly when group name is present and unique, the upload exists and is an image, and position is greater than 0 |
| FlashRules.FlashStore.constructor | app/models/discourse_rank_on_names/drop_zone_flash.rb:4-5 | an empty table |
| FlashRules.FlashStore.Ordered | app/models/discourse_rank_on_names/drop_zone_flash.rb:17 | `ordered` is a permutation of the rows in `(position, id)` order |
| FlashRules.FlashStore.Create | app/models/discourse_rank_on_names/drop_zone_flash.rb:9-28 | position defaults, then validation including the image check; an invalid row, or a valid one whose position does not fit the 4-byte column, changes nothing; otherwise the row is appended and the cache flushed |
| FlashRules.FlashStore.Update | app/models/discourse_rank_on_names/drop_zone_flash.rb:9-19 | unknown id is not found; an invalid patch, or a valid one out of the column's range, changes nothing; otherwise the patch replaces the row and flushes |
| FlashRules.FlashStore.Destroy | app/models/discourse_rank_on_names/drop_zone_flash.rb:19 | removes exactly that row and flushes the cache |
| FlashRules.MissingUploadIsBlank | app/models/discourse_rank_on_names/drop_zone_flash.rb:10 | a missing upload is reported as blank and skips the image check |
| FlashRules.ExtensionRequired | app/models/discourse_rank_on_names/drop_zone_flash.rb:33-34 | an upload without an extension, or with a blank one, is never an image |
| FlashRules.ImageCheckIgnoresCase | app/models/discourse_rank_on_names/drop_zone_flash.rb:33 | extensions that lowercase alike get the same verdict |
| FlashRules.DuplicateGroupNameRejected | app/models/discourse_rank_on_names/drop_zone_flash.rb:9 | a group name another row has gives a "taken" error |
| JsValues.Get | assets/javascripts/discourse/controllers/admin-plugins/rank-on-names.js:24 | a missing property reads as `undefined` |
| JsValues.Member | assets/javascripts/discourse/controllers/admin-plugins/rank-on-names.js:89 | optional chaining on a nullish value gives `undefined` |
| JsValues.Spread | assets/javascripts/discourse/controllers/admin-plugins/rank-on-names.js:96 | spreading an object contributes its properties; `null`, `undefined` and non-string primitives contribute none |
| JsValues.TrimStart | assets/javascripts/discourse/controllers/admin-plugins/rank-on-names.js:108 | drops exactly the leading white space |
| JsValues.TrimEnd | assets/javascripts/discourse/controllers/admin-plugins/rank-on-names.js:108 | drops exactly the trailing white space |
| JsValues.Trim | assets/javascripts/discourse/controllers/admin-plugins/rank-on-names.js:108-109 | the result neither starts nor ends with white space and is empty exactly when the text is all white space |
| JsValues.TrimIdempotent | assets/javascripts/discourse/controllers/admin-plugins/rank-on-names.js:108-109 | trimming twice is trimming once |
| JsValues.OptionalTrim | assets/javascripts/discourse/controllers/admin-plugins/rank-on-names.js:108-109 | `?.trim()` gives `undefined` for nullish, the trimmed text for a string, and throws for anything else |
| JsValues.LeadingDigits | assets/javascripts/discourse/controllers/admin-plugins/rank-on-names.js:42 | the longest prefix made of digits |
| JsValues.ParseInt | assets/javascripts/discourse/controllers/admin-plugins/rank-on-names.js:42 | `NaN` exactly when no digit follows the white space and the sign |
| JsValues.ParseIntOfIntToString | assets/javascripts/discourse/controllers/admin-plugins/rank-on-names.js:42 | `parseInt(String(n), 10)` is `n` for every integer |
| JsValues.ParseIntNaN | assets/javascripts/discourse/controllers/admin-plugins/rank-on-names.js:42-43 | text with no digit after the white space and the sign parses as `NaN` |
| ClientPrefixCache.KeyOf | assets/javascripts/discourse-rank-on-names/pre-initializers/rank-on-names.js:19 | the key is already lowercase and as long as the name |
| ClientPrefixCache.Remembered | assets/javascripts/discourse-rank-on-names/pre-initializers/rank-on-names.js:14-30 | a falsy name or an undefined prefix changes nothing; otherwise only the lowercased key changes: it is set to a non-empty prefix, removed for `null` or "", and the cache stays well formed |
| ClientPrefixCache.LookupIn | assets/javascripts/discourse-rank-on-names/pre-initializers/rank-on-names.js:38-44 | `undefined` for an empty name; otherwise the entry under the lowercased key, if any |
| ClientPrefixCache.FormatWith | assets/javascripts/discourse-rank-on-names/pre-initializers/rank-on-names.js:112-124 | "" for an empty name, "prefix name" when a non-empty prefix is cached, the bare name otherwise |
| ClientPrefixCache.PrefixCache.constructor | assets/javascripts/discourse-rank-on-names/pre-initializers/rank-on-names.js:5 | the cache starts empty |
| ClientPrefixCache.PrefixCache.LookupPrefix | assets/javascripts/discourse-rank-on-names/pre-initializers/rank-on-names.js:38-44 | a prefix exactly for a non-empty name whose lowercase form is cached, and then the non-empty cached prefix |
| ClientPrefixCache.PrefixCache.FormatUsername | assets/javascripts/discourse-rank-on-names/pre-initializers/rank-on-names.js:112-124 | a cached name gets its prefix and a space in front; any other name is printed as given |
| ClientPrefixCache.PrefixCache.Remember | assets/javascripts/discourse-rank-on-names/pre-initializers/rank-on-names.js:14-30 | the cache after the call is `Remembered` of the one before, and stays well formed |
| ClientPrefixCache.LookupAfterRemember | assets/javascripts/discourse-rank-on-names/pre-initializers/rank-on-names.js:19-43 | a remembered prefix is found under every spelling of the name that lowercases alike |
| ClientPrefixCache.LookupAfterForget | assets/javascripts/discourse-rank-on-names/pre-initializers/rank-on-names.js:25-29 | remembering `null` or "" forgets the name under every spelling |
| ClientPrefixCache.LookupOfOtherNameUnchanged | assets/javascripts/discourse-rank-on-names/pre-initializers/rank-on-names.js:14-30 | remembering one name does not change the lookup of any other name |
| ClientPrefixCache.FormatAfterRemember | assets/javascripts/discourse-rank-on-names/pre-initializers/rank-on-names.js:112-124 | after remembering, the hook renders "prefix name", with the name as given |
| ClientPrefixCache.FormatShowsCachedPrefix | assets/javascripts/discourse-rank-on-names/pre-initializers/rank-on-names.js:117-121 | in a well-formed cache, every cached prefix is shown |
| AdminRankController.SortKeyOf | assets/javascripts/discourse/controllers/admin-plugins/rank-on-names.js:24-27 | the key `(position, id)` of a row, with a falsy value read as 0; `Compare` is proved to order rows by it |
| AdminRankController.Compare | assets/javascripts/discourse/controllers/admin-plugins/rank-on-names.js:23-30 | the comparator is non-positive exactly when the key (position, else 0; id, else 0) is in order, and zero exactly on equal keys |
| AdminRankController.SortPrefixes | assets/javascripts/discourse/controllers/admin-plugins/rank-on-names.js:22-31 | a permutation of the rows in which the comparator never puts a row after one it should follow |
| AdminRankController.NormalizePosition | assets/javascripts/discourse/controllers/admin-plugins/rank-on-names.js:37-44 | null for nullish and ""; a number comes back unchanged; a non-empty text gives `parseInt` of it |
| AdminRankController.NormalizePositionNonNumeric | assets/javascripts/discourse/controllers/admin-plugins/rank-on-names.js:42-43 | booleans and objects normalize to null |
| AdminRankController.FindIndex | assets/javascripts/discourse/controllers/admin-plugins/rank-on-names.js:46-48 | the first row whose id is `===` to the argument, or none exactly when no row has it |
| AdminRankController.MapMatching | assets/javascripts/discourse/controllers/admin-plugins/rank-on-names.js:52-58 | rows with another id are kept; rows with the id get the update spread over them |
| AdminRankController.Replaced | assets/javascripts/discourse/controllers/admin-plugins/rank-on-names.js:50-60 | the merged rows, as a sorted permutation |
| AdminRankController.WithoutId | assets/javascripts/discourse/controllers/admin-plugins/rank-on-names.js:158 | rows with the id vanish, every other row keeps its number of occurrences |
| AdminRankController.BuildPayload | assets/javascripts/discourse/controllers/admin-plugins/rank-on-names.js:107-118 | sent exactly when both texts are strings that are not all white space, trimmed; a non-string, non-nullish value throws; otherwise missing fields |
| AdminRankController.RankListController.constructor | assets/javascripts/discourse/controllers/admin-plugins/rank-on-names.js:9-15 | the tracked fields' initial values |
| AdminRankController.RankListController.SetInitialModel | assets/javascripts/discourse/controllers/admin-plugins/rank-on-names.js:17-20 | sets the disabled flag and the sorted list, with a falsy list read as `[]` |
| AdminRankController.RankListController.ReplacePrefix | assets/javascripts/discourse/controllers/admin-plugins/rank-on-names.js:50-60 | the list becomes `Replaced` of the old one; nothing else changes |
| AdminRankController.RankListController.StartEdit | assets/javascripts/discourse/controllers/admin-plugins/rank-on-names.js:63-77 | unknown id changes nothing; otherwise opens a draft copied from the first row with the id |
| AdminRankController.RankListController.CancelEdit | assets/javascripts/discourse/controllers/admin-plugins/rank-on-names.js:80-85 | closes the draft; on an unknown id the list stays as it was |
| AdminRankController.RankListController.UpdateEditField | assets/javascripts/discourse/controllers/admin-plugins/rank-on-names.js:88-98 | without an open draft nothing changes; otherwise one field of the draft is set to the event's value |
| AdminRankController.RankListController.SaveEdit | assets/javascripts/discourse/controllers/admin-plugins/rank-on-names.js:101-137 | skipped without a draft; not sent when the payload fails; otherwise a PUT of the trimmed payload, and on success the reply merged in with editing closed |
| AdminRankController.RankListController.DeletePrefix | assets/javascripts/discourse/controllers/admin-plugins/rank-on-names.js:140-162 | skipped for unknown ids, declined without confirmation, otherwise a DELETE whose success removes the rows with the id |
| AdminRankController.RankListController.CreatePrefix | assets/javascripts/discourse/controllers/admin-plugins/rank-on-names.js:165-196 | not sent when the payload fails; otherwise a POST; on success the created row is added and the form cleared; never left saving |
| AdminRankController.RankListController.AddCreated | assets/javascripts/discourse/controllers/admin-plugins/rank-on-names.js:187-190 | the created row is appended, the list re-sorted and the form fields emptied |
| AdminRankController.ReplacedUnknownIdIsIdentity | assets/javascripts/discourse/controllers/admin-plugins/rank-on-names.js:50-60 | replacing by an id no row has leaves a sorted list unchanged |
| AdminRankController.ReplacedRowsCarryUpdate | assets/javascripts/discourse/controllers/admin-plugins/rank-on-names.js:50-60 | after a constant update, rows with the id carry every field of it; every other row was already there |
| AdminRankController.StartEditUpdate | assets/javascripts/discourse/controllers/admin-plugins/rank-on-names.js:69-76 | the object `startEdit` spreads over the row; its effect is stated by `StartEditOpensDraft` |
| AdminRankController.EditFieldUpdate | assets/javascripts/discourse/controllers/admin-plugins/rank-on-names.js:95-97 | the object `updateEditField` spreads over the row; its effect is stated by `EditFieldSetsDraftField` |
| AdminRankController.EditFieldSetsDraftField | assets/javascripts/discourse/controllers/admin-plugins/rank-on-names.js:88-98 | after `updateEditField`, each row with the id is a row that was there with its draft's field set to the value, everything else kept; every other row was already there |
| AdminRankController.StartEditOpensDraft | assets/javascripts/discourse/controllers/admin-plugins/rank-on-names.js:69-76 | every row with the id is editing, with a draft of the group name, prefix and position of the row found |
| AdminRankController.DeleteRemovesExactlyThatId | assets/javascripts/discourse/controllers/admin-plugins/rank-on-names.js:158 | after a delete no row has the id, and every other row is kept as often as before |
| AdminRankController.CreateAddsTheRow | assets/javascripts/discourse/controllers/admin-plugins/rank-on-names.js:187 | a create adds exactly the created row |
| AdminRankRoute.RouteModel | assets/javascripts/discourse/routes/admin-plugins/rank-on-names.js:5-11 | an object with an empty list and a truthy `disabled` when the user is not an admin or the plugin is off, otherwise the endpoint's list and no `disabled` |
| AdminRankRoute.SetupArgument | assets/javascripts/discourse/routes/admin-plugins/rank-on-names.js:15 | the first argument as written: a missing model becomes an empty object, any other is passed on as it is |
| AdminRankRoute.InitialRows | assets/javascripts/discourse/controllers/admin-plugins/rank-on-names.js:19-23 | the list spread of `setInitialModel` throws exactly for a plain object; a missing list is empty and an array gives its rows |
| AdminRankRoute.HandOffAsWrittenThrows | assets/javascripts/discourse/routes/admin-plugins/rank-on-names.js:13-16 | as written, every model `model()` produces makes `setInitialModel` throw a TypeError |
| AdminRankRoute.HandOff | assets/javascripts/discourse/routes/admin-plugins/rank-on-names.js:15 | the corrected arguments `model?.prefixes` and `model?.disabled` |
| AdminRankRoute.HandOffShowsRouteModel | assets/javascripts/discourse/routes/admin-plugins/rank-on-names.js:5-16 | with the corrected hand-off the controller gets the endpoint's list and stays enabled, or gets an empty list and is disabled |
| AdminRankRoute.SetupController | assets/javascripts/discourse/routes/admin-plugins/rank-on-names.js:13-16 | the corrected hand-off: the controller's list is the model's list sorted, its disabled flag the model's, and the form untouched |
| AdminRankRoute.ShowRoute | assets/javascripts/discourse/routes/admin-plugins/rank-on-names.js:5-16 | the page after the corrected route: the endpoint's rows in comparator order and enabled, or empty and disabled |

## Findings

| source | as written | input that shows it | evidently intended | confidence | as-written member | corrected member |
|---|---|---|---|---|---|---|
| assets/javascripts/discourse/routes/admin-plugins/rank-on-names.js:15 | `setupController` passes the whole model object (or an empty object) as the `prefixes` argument, and `#sortPrefixes` spreads it with `[...prefixes]`, which throws a TypeError for a plain object; the admin list never loads | the disabled literal `{ prefixes: [], drop_zone_flashes: [], disabled: true }`, or the index endpoint's `{ prefixes: [...] }` | `setInitialModel(model?.prefixes, model?.disabled)` | high; not executed | AdminRankRoute.HandOffAsWrittenThrows | AdminRankRoute.SetupController |

## Left out

- Requests and dialogs are not modelled as I/O. The `ajax` calls, `popupAjaxError`, `I18n.t` and `window.confirm` are replaced by parameters (`Reply`, `confirmed`, `succeeded`) and by the returned `Outcome`.
- Concurrency is not modelled. Several actions can be awaiting replies at once. Each action is one atomic step, so `isSavingNew` is only seen false after `CreatePrefix`.
- The Ember wiring is not modelled: `modifyClass`, observers, `addTrackedPostProperties`, `syncFromUserRecord` and `getCurrentUser`. Each of them feeds `rememberPrefix` the `username` and `rank_prefix` fields of a record, which `PrefixCache.Remember` covers.
- The Rails side around the core is not part of this model:
  - the admin HTTP controllers, with their `ensure_enabled!` gate, parameter coercion and JSON replies;
  - the serializers;
  - `plugin.rb`, which calls `invalidate_user` on group membership changes;
  - the migrations, apart from the 4-byte range of the `position` columns.
- `DEFAULT_GROUP_PREFIXES` is not modelled: the code defines the table but never reads it.
- The cache backend is not modelled in detail. `Discourse.cache` and Redis are a map from keys to entries with no expiry or eviction, and the pipelined deletes of `clear_cache!` are one deletion after another.
- The membership query is the abstract function `memberOf`. The model does not capture the `GroupUser` join or the database order of its result, on which the selection is proved not to depend.
- `FileHelper.is_supported_image?` is the abstract predicate `isImage`.
- Flash resolution is not modelled. The library spec calls `drop_zone_flash_for_user` and `css_class_for_group_name`, but lib/discourse_rank_on_names.rb does not define either. Flash rules are modelled as a store, with validation, ordering and cache flushing.
- `return if keys.empty?` in `clear_cache!` is not modelled. The list key is always added first, so the return can never fire.
- FlashRules.FlashStore.Valid does not keep upload existence. The uploads are a parameter of each call, not state of the store, so the store cannot speak about them between calls. In the database, a foreign key keeps a referenced upload from being deleted.
- FlashRules.FlashStore.Create and FlashRules.FlashStore.Update: the range of the 4-byte `upload_id` column is not checked. An upload id is only accepted when an upload with that id exists, and upload ids are assumed to fit the column.
- PrefixRules.PrefixStore.Create, PrefixRules.PrefixStore.Update, FlashRules.FlashStore.Create and FlashRules.FlashStore.Update: `prefix_params` converts the position with `to_i`, which is part of the HTTP controller and not of this model. The stores take the position as an integer.
- FlashRules.FlashStore.Update and PrefixRules.PrefixStore.Update: a patch attribute is either given or absent. An explicit `nil` in a patch is not modelled; it would give a "blank" error.
- The separate `belongs_to` "must exist" error is not modelled. A missing upload is reported once, as blank.
- Common.Lower: lowercasing covers ASCII only. Ruby's `downcase` and JavaScript's `toLowerCase` also lowercase other letters.
- JavaScript numbers are integers only. The model has no fractions, `NaN` value, `-0` or `Infinity`. The loss of precision of `parseInt` above 2^53 and exponent notation above 10^21 are not modelled.
- AdminRankController.SortKeyOf and AdminRankController.Compare: a truthy `position` or `id` that is not a number counts as 0. JavaScript would coerce it or compare with `NaN`.
- JsValues.Spread and AdminRankController.EditFieldUpdate: spreading a string, which JavaScript splits into indexed characters, is not modelled. It contributes nothing.
- JsValues.Member: properties of primitive values (for example the `length` of a string) read as `undefined`.
- Objects are compared by value, not by reference, wherever `===` is applied to them (`FindIndex`, `WithoutId`). Ids are numbers in practice.
- AdminRankRoute: the `ajax` request of `model()` and `super.setupController` are not modelled. The endpoint's list is a parameter, and a failed request never reaches `setupController`.
- AdminRankRoute.HandOff reads `disabled` by truthiness. The controller would store a falsy non-boolean value as it is.
- The duplicate `ordered` scopes of the two rule classes stay in their classes. Both call the one `Sorting.SortBy`, each with its own row key.
