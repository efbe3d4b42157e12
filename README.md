# vault-records: the record store and the wealth summary

vault-records is a desktop app for keeping personal records of cash and precious metals.
It keeps each category as a list of records in the browser's local storage.
This project models two parts of it.

- **The record store.** `StorageService` owns one named partition of local storage.
  It offers `initialize`, `getAll`, `getById`, `create`, `update` and `delete`.
  The app builds two instances, `cashData` and `metalsData`.
- **The wealth summary's figures.**
  - The cash balance sums the `amount` fields.
  - The metals roll-up groups entries by the key `${metalType}-${purity}`.
    Each row keeps the type and purity of its key's first entry and sums the `grams` of all its entries.
    Rows come out in order of first occurrence.
  - The two count labels ("n transactions", "n entries").

The Dafny modules follow the program's structure.

- `Values` (values.dfy): the JavaScript values the code works with.
  - JSON scalars and records.
  - Truthiness.
  - Numbers with NaN.
  - The decimal text of numbers.
- `Storage` (storage.dfy):
  - The local storage as a class, `LocalStorage`.
  - `StorageService` as a class whose methods read the partition, change it and write it back.
  - The list functions those methods use (`find`, `findIndex`, `filter`, object spread), with their properties.
- `Totals` (totals.dfy):
  - The cash fold.
  - The metals group-by, written as the loop over a map plus a key order that the component runs.
  - `MetalGroups`, a reference definition of the roll-up over the whole list.
  - The labels.
  - The summary.

Modelling choices:

- **`parseFloat`** is a parameter `parse: Value -> JsNumber`. It gives NaN or an exact integer in fixed units (cents, milligrams), so sums are exact. The model applies it to a field only when the field is truthy; `field || 0` gives 0 otherwise. NaN absorbs in addition, as in JavaScript.
- **`Date.now()`** is a parameter `now: nat` of `create`. The id is its decimal text.
- **`localStorage` plus `JSON.stringify`/`JSON.parse`** is a map from key to list of records. An absent key is `getItem` returning `null`.

Four behaviours of the code a reader might not expect:

- `update` lets an `id` in `updates` replace the record's id, because the spread puts `updates` last.
- Metals are grouped by the key string `${metalType}-${purity}`. Two entries whose types and purities differ can share a row (`Totals.KeyCollision`).
- `delete` removes every record with the id.
- Stored text that is not valid JSON makes `JSON.parse` throw in `getAll`, and so in every operation that reads the partition.

## Model

| member | source | states |
|---|---|---|
| Values.AddAssociative | src/renderer/src/TotalsSummary.jsx:7 | `+` on numbers, with NaN absorbing, is associative, so the running sum can be regrouped |
| Values.AddCommutative | src/renderer/src/TotalsSummary.jsx:7 | `+` on numbers, with NaN absorbing, is commutative, so a group's grams can be added in any group order |
| Values.AddZero | src/renderer/src/TotalsSummary.jsx:7 | the initial 0 of the reduce is the identity of `+`: it leaves NaN and every value as they are |
| Values.SumConcat | src/renderer/src/TotalsSummary.jsx:7 | the left-to-right sum of a concatenation is the sum of the two parts' sums |
| Values.SumNaN | src/renderer/src/TotalsSummary.jsx:7 | a sum is NaN exactly when one of its terms is NaN |
| Values.NatToString | src/renderer/src/storageService.js:24 | the decimal text of a clock reading is a non-empty run of digits, one digit exactly below 10 |
| Values.ParseNatToString | src/renderer/src/storageService.js:24 | reading the decimal text of a clock reading back gives the reading |
| Values.NatToStringInjective | src/renderer/src/storageService.js:24 | distinct clock readings give distinct id strings |
| Storage.Initialized | src/renderer/src/storageService.js:7-11 | after initialize the key is present; an existing partition and every other key are unchanged; an absent one becomes `[]` |
| Storage.InitializeIdempotent | src/renderer/src/storageService.js:7-11 | initializing twice is the same as initializing once |
| Storage.FindIndex | src/renderer/src/storageService.js:32 | `findIndex`: -1 exactly when no record has the id, otherwise the first position whose record has it |
| Storage.Find | src/renderer/src/storageService.js:19 | `find`: the record at the first matching position, or None when no record matches |
| Storage.Without | src/renderer/src/storageService.js:43 | `filter`: keeps exactly the records whose id differs; its length is unchanged exactly when no record matches, and then the list is unchanged |
| Storage.WithoutConcat | src/renderer/src/storageService.js:43 | filtering keeps the order: filtering a concatenation concatenates the filtered parts |
| Storage.WithoutCount | src/renderer/src/storageService.js:43-45 | delete removes exactly as many records as carry the id |
| Storage.DistinctIdsCountOne | src/renderer/src/storageService.js:41-46 | with distinct ids, deleting a present id shrinks the list by exactly one |
| Storage.DeleteThenGet | src/renderer/src/storageService.js:17-20 | after filtering out an id, looking it up finds nothing |
| Storage.Merge | src/renderer/src/storageService.js:34 | `{ ...base, ...updates }`: the keys of both; keys of `updates` take its values; other keys keep the base values |
| Storage.Stamped | src/renderer/src/storageService.js:24 | the created record has the item's fields plus `id`, which is the clock string whatever `id` the item had |
| Storage.FindAppended | src/renderer/src/storageService.js:17-20 | a record appended after records that do not match is the one lookup finds |
| Storage.FreshClockId | src/renderer/src/storageService.js:24 | no record issued at an earlier clock reading has the id of the current reading |
| Storage.DistinctAppended | src/renderer/src/storageService.js:25 | appending a record whose id no stored record has keeps ids distinct |
| Storage.IssuedAppended | src/renderer/src/storageService.js:24-25 | after a create the list's ids were all issued before the next clock reading |
| Storage.CreateWithAdvancingClock | src/renderer/src/storageService.js:22-28 | while the clock advances between creates, the new id is fresh, `getById` of it finds the created record, and ids stay distinct |
| Storage.UpdateThenGet | src/renderer/src/storageService.js:30-37 | after an update that keeps the id, `getById` finds the merged record |
| Storage.OtherKeyKept | src/renderer/src/storageService.js:26 | a store changed only at one key gives every other key the same partition |
| Storage.WritesLeaveOtherPartition | src/renderer/src/storageService.js:49-50 | create, update and delete through one service (say `cashStorage`) leave what a service over the same storage with another key (`metalsStorage`) sees unchanged |
| Storage.LocalStorage.GetItem | src/renderer/src/storageService.js:14 | `getItem`: the stored list, or None (`null`) for an absent key |
| Storage.LocalStorage.SetItem | src/renderer/src/storageService.js:26 | `setItem`: the key now holds the list and every other key is unchanged |
| Storage.StorageService.constructor | src/renderer/src/storageService.js:2-5 | remembers the key and leaves storage initialized for it |
| Storage.StorageService.Initialize | src/renderer/src/storageService.js:7-11 | writes `[]` only when the key is absent, and so leaves the visible list unchanged |
| Storage.StorageService.GetAll | src/renderer/src/storageService.js:13-15 | returns the partition, and `[]` when the key is absent |
| Storage.StorageService.GetById | src/renderer/src/storageService.js:17-20 | the first record with the id; None exactly when no record has it; a found record has the id and is stored |
| Storage.StorageService.Create | src/renderer/src/storageService.js:22-28 | returns the stamped record; the partition becomes the old list plus that record at the end; other keys unchanged |
| Storage.StorageService.Update | src/renderer/src/storageService.js:30-39 | on a match, only the first matching record becomes its merge with `updates`, and the merged record is returned; on none, returns None and writes nothing; other keys unchanged |
| Storage.StorageService.Delete | src/renderer/src/storageService.js:41-46 | rewrites the partition as the filtered list, even when nothing matched; returns true exactly when a record had the id; other keys unchanged |
| Storage.CreateServices | src/renderer/src/storageService.js:49-50 | the `cashData` and `metalsData` services share one storage under distinct keys, and both partitions are initialized |
| Totals.FieldSumConcat | src/renderer/src/TotalsSummary.jsx:7 | the total over a concatenation is the sum of the two totals |
| Totals.FieldSumSnoc | src/renderer/src/TotalsSummary.jsx:7 | one more entry adds its parsed field to the running total |
| Totals.FieldSumNaN | src/renderer/src/TotalsSummary.jsx:7 | the total is NaN exactly when some entry's field parses to NaN |
| Totals.FieldSumSingle | src/renderer/src/TotalsSummary.jsx:7 | one entry contributes its parsed field, and 0 when the field is missing, empty or zero |
| Totals.FieldSumIgnoresFalsy | src/renderer/src/TotalsSummary.jsx:7 | inserting an entry with a missing, empty or zero field anywhere leaves the total as it was |
| Totals.CashTotalExample | src/renderer/src/TotalsSummary.jsx:7 | no entries total 0; amounts "100" and "-40.50" total 59.50 |
| Totals.GroupKeysComplete | src/renderer/src/TotalsSummary.jsx:11-13 | the roll-up's keys are exactly the keys of the entries |
| Totals.GroupKeysDistinct | src/renderer/src/TotalsSummary.jsx:13-19 | each key occurs once |
| Totals.FirstIndex | src/renderer/src/TotalsSummary.jsx:13-19 | the position of the first entry with a key: it has the key and no earlier entry does |
| Totals.GroupKeysInFirstOccurrenceOrder | src/renderer/src/TotalsSummary.jsx:11-22 | keys come in order of their first occurrence in the entries |
| Totals.GramsForIsSumOfItsEntries | src/renderer/src/TotalsSummary.jsx:20 | a key's grams are the sum of the grams of exactly the entries with that key, in order |
| Totals.GramsForAbsent | src/renderer/src/TotalsSummary.jsx:17 | a key no entry carries has 0 grams |
| Totals.MetalGroupsKeys | src/renderer/src/TotalsSummary.jsx:11-22 | one row per distinct key, row j carrying the j-th key |
| Totals.MetalGroupsRows | src/renderer/src/TotalsSummary.jsx:11-22 | each row carries its key, the type and purity of that key's first entry, and the sum of the grams of that key's entries |
| Totals.MetalGroupsCoverKeys | src/renderer/src/TotalsSummary.jsx:11-22 | every entry's key has a row, and every row's key is some entry's key |
| Totals.MetalGroupsDistinct | src/renderer/src/TotalsSummary.jsx:13-19 | no two rows share a key |
| Totals.MetalGroupsOrder | src/renderer/src/TotalsSummary.jsx:48-49 | rows come in order of the first occurrence of their keys |
| Totals.MetalGroupsEmpty | src/renderer/src/TotalsSummary.jsx:48-57 | there are no rows exactly when there are no entries, which shows "No metals recorded" |
| Totals.TotalOfRows | src/renderer/src/TotalsSummary.jsx:20 | rows whose grams are those of a key list total the sum over those keys |
| Totals.SumOverAllKeys | src/renderer/src/TotalsSummary.jsx:11-22 | summing each distinct key's grams gives the grams of all entries |
| Totals.MetalGroupsTotal | src/renderer/src/TotalsSummary.jsx:11-22 | the rows' totals add up to the grams of all entries |
| Totals.KeyInjective | src/renderer/src/TotalsSummary.jsx:12 | when no metal type contains '-', two entries share a key exactly when their types and purities print the same |
| Totals.KeyCollision | src/renderer/src/TotalsSummary.jsx:12 | type "a-b" with purity "c" and type "a" with purity "b-c" share one row |
| Totals.GroupMetals | src/renderer/src/TotalsSummary.jsx:11-22 | the reduce into an object followed by `Object.values` gives exactly the reference roll-up `MetalGroups` |
| Totals.AccumulateStep | src/renderer/src/TotalsSummary.jsx:12-21 | one step of the reduce preserves the invariant: the key order is the first-occurrence key list, and each key holds its row for the entries so far |
| Totals.AccumulatedValues | src/renderer/src/TotalsSummary.jsx:48 | at the end the values in insertion order are the roll-up |
| Totals.GroupKeysStep | src/renderer/src/TotalsSummary.jsx:13 | one more entry adds its key at the end exactly when the key is new |
| Totals.GroupStep | src/renderer/src/TotalsSummary.jsx:13-20 | one more entry leaves other rows alone, adds its grams to an existing row of its key, or opens a row with its type, purity and grams |
| Totals.CashCountLabel | src/renderer/src/TotalsSummary.jsx:42 | "1 transaction" for one entry, "n transactions" otherwise |
| Totals.MetalsCountLabel | src/renderer/src/TotalsSummary.jsx:60 | "1 entry" for one entry, "n entries" otherwise |
| Totals.Summarize | src/renderer/src/TotalsSummary.jsx:6-22 | the cash total and label of the cash partition; the placeholder for no metals, otherwise the roll-up's rows; the metals label |

## Left out

- React rendering, hooks, navigation, the forms and `window.confirm` are UI. The per-category components are not part of this model.
- The JSON text itself is not modelled: the store holds lists of records directly. This limits the model in five ways.
  - Stored text that is not valid JSON (where `JSON.parse` throws) is out of reach.
  - So is text that parses to a falsy value other than `null`, which `|| []` also turns into `[]`.
  - So is text that parses to a truthy value that is not a list (`{}`, `5`, `"x"`): `getAll` returns it, and `find`, `findIndex`, `push` and `filter` then throw.
  - So is a list holding non-objects: on `null`, `item.id` throws; on a number, string, boolean or array it is `undefined`.
  - `setItem` failing on a full storage is not modelled.
- Values are JSON scalars with integer numbers only: a stored non-integer such as `2.5`, nested objects and arrays, and fields holding `undefined` are not modelled. Records are maps, so the order of their fields is not modelled either.
- `getById`, `update` and `delete` called with `undefined` as the id are not modelled. In the code, `item.id === undefined` matches every record without an `id`, so such a call finds or merges into the first of those records, or removes all of them. The model's ids are values, and a record without an `id` never matches.
- `parseFloat` and floating point are a parameter, `parse`. The model assumes exact integer sums in fixed units. Rounding, `Infinity` and `-0` are not modelled.
- Display formatting is not modelled: `toLocaleString` currency, `toFixed(2)`, the capitalised metal type and the colour of a negative balance.
- `Date.now()` is a parameter. Ids are unique only while the clock advances between creates. `Storage.CreateWithAdvancingClock` states this under that assumption, because the code gives no guarantee.
- seedStorage.js is entirely commented out, and no seed partition exists in the core. The seed bank component is not part of this model.
- Concurrent writers to the same storage (several windows) are not modelled.
