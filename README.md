# Edit session of the configuration page

This project models the edit session of the configuration editor's single page, the
`Home` component in `app/page.tsx`. The page loads the whole configuration document. That
document maps user id to a user configuration, and each user configuration holds four
sub-collections:

- global keywords: keyword → discount;
- channel keywords: channel id → a list of keyword and discount pairs;
- negative keywords;
- blacklisted channels: a bare legacy id, or an id and a nickname.

The page keeps the loaded document as a baseline and edits a draft with a dozen mutators.
It flags unsaved changes by comparing the draft with the baseline, and on a successful save
the draft becomes the new baseline. It also sorts the keyword lists for display, shows
legacy blacklist entries in a normalised form, and filters the numeric input fields.

The modules:

- `JsObject` (js_object.dfy): the two writes the page performs on a JavaScript object used
  as a dictionary. `r[k] = v` updates a present key in place and appends a new one.
  `delete r[k]` removes the key. An object is the list of its own properties in
  enumeration order.
- `JsArray` (js_array.dfy): the indexed write `a[i] = v`, `splice(start, 1)` with
  JavaScript's normalisation of the start, and `findIndex`.
- `JsString` (js_string.dfy): `trim`, the digit filter `replace(/\D/g, '')`, decimal
  rendering, `parseInt(s) || 0` on the strings the inputs can hold, and the generated
  channel ids `channel-<n>`.
- `Config` (config.dfy): the document's datatypes, well-formedness (no key occurs twice),
  and the normalisation of legacy blacklist entries.
- `Sorting` (sorting.dfy): `sortGlobalKeywords` and `sortChannelKeywords`. Each is a stable
  sort driven by the source's comparator, with `localeCompare` as a parameter.
- `Page` (page.dfy): the class `Home`, with one method per mutator, the load, the save,
  the unsaved-changes effect and the input handlers. It also holds the fresh-channel-id
  search as a loop, and lemmas that relate the mutators' effects to one another.

`Home.Valid()` is the invariant every method keeps:

- the draft and the baseline are loaded together;
- `hasUnsavedChanges` holds exactly when the draft differs from the baseline;
- the draft is well formed;
- the new-keyword discount field holds only digits.

Each mutator's contract says what the whole new document is. When nothing is loaded, the
document is unchanged. Otherwise the document keeps the same users in the same order, the
edited user holds the previous configuration with exactly one sub-collection replaced, and
every other user is unchanged. This is the predicate `Page.ReplacesUser`.

The unsaved-changes check compares the two documents through `JSON.stringify`. It is
modelled as equality of the two values, in which the order of object keys counts.

Four behaviours of the code, which the model keeps as they are:

- A rename or an add overwrites an existing key silently. The code never rejects a
  duplicate, whatever its case (app/page.tsx:130-137, 167).
- A rename is a `delete` followed by an assignment. When the new key is absent, the renamed
  entry moves to the end of its object. When the new key already exists, the entry takes
  that key's position (app/page.tsx:130-133, 202-206).
- Nothing checks at save time that channel ids have 19 digits. The 19-digit cap exists only
  in the blacklist id input (app/page.tsx:902-906).
- `handleSave` posts the whole draft. It does not merge the edited user into a freshly
  fetched document (app/page.tsx:104).

## Model

| member | source | states |
|---|---|---|
| JsObject.Get | app/page.tsx:124-128 | `r[k]` is defined exactly for the keys of `r`, and gives the value of the first property with that key |
| JsObject.Assign | app/page.tsx:136 | `r[k] = v` replaces the property in place when `k` is present and appends `Prop(k, v)` otherwise |
| JsObject.AssignGet | app/page.tsx:136 | after `r[k] = v`, `k` reads `v` and every other key reads what it read before |
| JsObject.AssignKeys | app/page.tsx:136 | `r[k] = v` keeps the key order, adding `k` at the end exactly when it is new |
| JsObject.AssignDistinct | app/page.tsx:136 | an assignment never makes a key occur twice |
| JsObject.Delete | app/page.tsx:152 | `delete r[k]` leaves `r` unchanged when `k` is absent and never lengthens `r` |
| JsObject.DeleteAt | app/page.tsx:152 | on an object with distinct keys, `delete r[k]` for a present `k` removes exactly the property at `k`'s position and keeps the others in order |
| JsObject.DeleteGet | app/page.tsx:152 | after `delete r[k]`, `k` is undefined and every other key reads what it read before |
| JsObject.DeleteLength | app/page.tsx:152 | `delete` shortens the object by one exactly when the key was present |
| JsObject.DeleteDistinct | app/page.tsx:152 | a deletion never makes a key occur twice |
| JsObject.RenameKey | app/page.tsx:130-133 | `delete r[a]; r[b] = v` leaves `a` absent and `b` holding `v`, overwriting any earlier `b`; other keys are unchanged; the size drops by one when both `a` and `b` existed, grows by one when neither did, and is unchanged otherwise; when `b` was absent it is added after the remaining keys |
| JsArray.SetIndex | app/page.tsx:187 | `a[i] = v` sets slot `i` and leaves every other slot and the length alone, or appends when `i` is the length |
| JsArray.Splice | app/page.tsx:222 | `splice(start, 1)` removes the one element at the normalised start, keeps the rest in order, and shortens the list by one when the start is in range |
| JsArray.SpliceStart | app/page.tsx:222 | a negative start counts back from the end, clamped at 0, and a start past the end is clamped to the length |
| JsArray.FindIndex | app/page.tsx:816 | `findIndex` gives -1 exactly when the element is absent, and otherwise its first position |
| JsString.DigitsOnly | app/page.tsx:535 | the digit filter keeps only digits, keeps a string of digits as it is, and never lengthens its input |
| JsString.DigitsOnlyCounts | app/page.tsx:535 | every digit of the input survives the filter as often as it occurs, and no other character does |
| JsString.DigitsOnlyConcat | app/page.tsx:535 | the filter works character by character: the digits of `a + b` are the digits of `a` followed by those of `b` |
| JsString.LeadingBlanks | app/page.tsx:160 | the white space `trim` cuts at the front is the longest run of white space the string starts with |
| JsString.TrailingBlanks | app/page.tsx:160 | the white space `trim` cuts at the back is the longest run of white space the string ends with |
| JsString.TrimStart | app/page.tsx:160 | the result is the suffix of `s` left after its leading run of white space, and does not start with white space |
| JsString.TrimEnd | app/page.tsx:160 | the result is the prefix of `s` left before its trailing run of white space, and does not end with white space |
| JsString.Trim | app/page.tsx:160 | `s.trim()` is the slice of `s` that starts right after the leading white space and is followed only by white space |
| JsString.TrimEmptyIffBlank | app/page.tsx:160 | `!s.trim()` holds exactly when `s` is all white space |
| JsString.TrimEnds | app/page.tsx:167 | the trimmed keyword has no white space left at either end |
| JsString.TrimIdempotent | app/page.tsx:167 | trimming the trimmed keyword changes nothing |
| JsString.DecimalString | app/page.tsx:650 | `toString` of a natural number is a non-empty string of digits with no leading zero |
| JsString.IntString | app/page.tsx:650 | `toString` of an integer starts with a minus sign exactly when the integer is negative, followed by digits with no leading zero |
| JsString.DecimalRoundTrip | app/page.tsx:260-263 | reading a rendered natural number gives the number back |
| JsString.ParseIntOrZero | app/page.tsx:167 | `parseInt(s) \|\| 0` of a digit field is non-negative and gives 0 for the empty field |
| JsString.ParseIntOrZeroLeadingZeros | app/page.tsx:167 | a digit field holding zeros followed by the rendering of `n`, as typed after the field's initial "0", reads as `n` |
| JsString.DecimalValueLeadingZeros | app/page.tsx:167 | zeros in front of a digit string do not change its value |
| JsString.ParseIntOrZeroRoundTrip | app/page.tsx:584 | the discount put into the edit field by `toString` is read back unchanged by `parseInt(…) \|\| 0` |
| JsString.ChannelIndexOfName | app/page.tsx:260-263 | `channel-${counter}` names its own counter, so different counters give different ids |
| Config.AssignWellFormed | app/page.tsx:140 | installing a well-formed user configuration keeps the document well formed |
| Config.ChannelData | app/page.tsx:892-894 | a bare legacy id is shown as an entry with that id as both id and nickname; a structured entry is shown as it is |
| Sorting.Insert | app/page.tsx:384 | inserting adds exactly one element to the multiset |
| Sorting.Sort | app/page.tsx:384 | the sort is a permutation of its input |
| Sorting.SortOrdered | app/page.tsx:384-387 | with an asymmetric comparator no element comes out right before one it sorts ahead of |
| Sorting.Filter | app/page.tsx:378-379 | `filter` keeps exactly the elements that pass the test: nothing else, and every element that passes |
| Sorting.FilterConcat | app/page.tsx:378-379 | `filter` keeps the input order: filtering `a + b` gives the kept elements of `a` followed by those of `b` |
| Sorting.FilterSplit | app/page.tsx:378-379 | the being-edited and the not-being-edited filters together hold every entry exactly once |
| Sorting.GlobalOrder | app/page.tsx:383-388 | by name, two global keywords compare as `localeCompare` of their names; by discount, the one with the higher discount sorts first and equal discounts tie |
| Sorting.ChannelOrder | app/page.tsx:394-397 | by name, two channel keywords compare as `localeCompare` of their texts; by discount, the higher discount sorts first and equal discounts tie |
| Sorting.OrdersAsymmetric | app/page.tsx:384-387 | the by-discount comparators are always consistent, and the by-name ones are when `localeCompare` is |
| Sorting.SortGlobalKeywords | app/page.tsx:375-391 | the display list is a permutation of the entries, with every entry being edited or unnamed after every other, in its original order |
| Sorting.SortGlobalKeywordsOrdered | app/page.tsx:383-388 | the entries not being edited come out in the chosen order |
| Sorting.SortChannelKeywords | app/page.tsx:393-399 | the display list is a permutation of the channel's keywords, by descending discount when that order is chosen |
| Sorting.SortChannelKeywordsByName | app/page.tsx:394-395 | by name, the channel's keywords follow `localeCompare` when it is consistent |
| Page.InstallUser | app/page.tsx:139-140 | `newConfigs[userId] = userConfig` for a present user keeps the users and their order, and changes only that user |
| Page.BlacklistIdInput | app/page.tsx:902-906 | a blacklist id edit is kept, as exactly its digits, if and only if it holds at most 19 digits |
| Page.ChannelDiscountInput | app/page.tsx:830-832 | a channel discount edit is its digits read as a number, 0 for an empty field, and a rendered number reads back as itself |
| Page.NonDigitIgnored | app/page.tsx:902-906 | a non-digit typed anywhere into a blacklist id or a channel discount changes neither |
| Page.DigitAppended | app/page.tsx:902-906 | a digit typed at the end of a channel discount shifts it one decimal place up and adds the digit; at the end of a blacklist id it is appended unless the id already has 19 digits |
| Page.BlacklistIdKeepsDigits | app/page.tsx:902-906 | an accepted blacklist id holds every digit typed, as often as typed, and nothing else |
| Page.FreshChannelId | app/page.tsx:259-264 | the search ends on the smallest counter from 1 whose `channel-<counter>` is not a channel |
| Page.DisplayedChannelKeywordIndex | app/page.tsx:815-816 | every keyword shown in the sorted list is found back at a valid index holding it |
| Page.DeleteChannelKeywordEffect | app/page.tsx:220-228 | deleting at a valid index removes that element and keeps the others in order; a list left empty takes its channel with it; other channels are unchanged |
| Page.AssignSameValue | app/page.tsx:89-93 | writing back the value a key already holds gives the same document, so the draft stays clean |
| Page.RenameThereAndBack | app/page.tsx:89-93 | when `b` is not a key and `a` is not the last key, renaming `a` to `b` and back restores every value but moves `a` to the end, so the draft still counts as changed |
| Page.Home.constructor | app/page.tsx:55-73 | the session starts with nothing loaded, nothing unsaved, no save in flight, an empty message and a closed, empty new-keyword form |
| Page.Home.Loaded | app/page.tsx:78-81 | after the load, draft and baseline are both the fetched document and nothing is unsaved |
| Page.Home.SyncUnsavedChanges | app/page.tsx:89-93 | once both documents are loaded, the flag says whether they differ |
| Page.Home.SetConfigs | app/page.tsx:142 | installing a draft recomputes the flag against the baseline |
| Page.Home.BeginSave | app/page.tsx:96-104 | the request is in flight, the message is cleared, and the body posted is the draft as it is when the save starts |
| Page.Home.EndSave | app/page.tsx:106-120 | on success the posted body becomes the baseline and the flag says whether the draft was edited since; otherwise baseline and flag stay and the failure message is set; the request is no longer in flight |
| Page.Home.HandleSave | app/page.tsx:95-121 | a save with no edit while it is in flight posts the draft, and on success leaves the draft as the baseline with nothing unsaved |
| Page.Home.Install | app/page.tsx:139-142 | installing a user replaces only that user and keeps the invariant |
| Page.Home.UpdateGlobalKeyword | app/page.tsx:123-143 | a committed rename deletes the old keyword and writes the new one; otherwise only the discount under the old keyword is written |
| Page.Home.DeleteGlobalKeyword | app/page.tsx:145-157 | only that keyword is deleted from the edited user's global keywords |
| Page.Home.SetNewKeywordInput | app/page.tsx:516 | the keyword field holds what was typed |
| Page.Home.SetNewKeywordDiscount | app/page.tsx:534-537 | the discount field holds only the digits typed |
| Page.Home.ResetNewKeywordForm | app/page.tsx:174-176 | the form closes and both fields are reset |
| Page.Home.AddGlobalKeyword | app/page.tsx:159-177 | nothing changes for a blank name; otherwise the trimmed name gets the parsed discount and the form is reset |
| Page.Home.UpdateChannelKeyword | app/page.tsx:179-193 | slot `idx` of the channel's list, or of a new one, becomes the given keyword |
| Page.Home.UpdateChannelId | app/page.tsx:195-212 | equal ids leave the channels unchanged; otherwise the new id takes the old id's list and the old id is gone |
| Page.Home.DeleteChannelKeyword | app/page.tsx:214-234 | the list loses the element at `idx`, and an emptied channel is deleted |
| Page.Home.AddChannelKeyword | app/page.tsx:236-250 | an empty keyword is appended to the channel's list, or to a new one |
| Page.Home.AddNewChannel | app/page.tsx:252-271 | a channel under the first free `channel-<n>`, holding one empty keyword, is appended after the existing channels |
| Page.Home.UpdateNegativeKeyword | app/page.tsx:273-285 | slot `idx` of the negative keywords is replaced |
| Page.Home.DeleteNegativeKeyword | app/page.tsx:287-299 | the negative keyword at `idx` is removed |
| Page.Home.AddNegativeKeyword | app/page.tsx:301-313 | an empty negative keyword is appended |
| Page.Home.UpdateBlacklistedChannel | app/page.tsx:315-327 | slot `idx` of the blacklist becomes a structured entry with the given id and nickname |
| Page.Home.DeleteBlacklistedChannel | app/page.tsx:329-341 | the blacklist entry at `idx` is removed |
| Page.Home.AddBlacklistedChannel | app/page.tsx:343-355 | an entry with empty id and nickname is appended |
| Page.Home.ChangeChannelKeywordDiscount | app/page.tsx:830-833 | the keyword at `idx` keeps its text and gets the digits typed as its discount |
| Page.Home.ChangeBlacklistedChannelId | app/page.tsx:901-907 | the entry, in its normalised form, takes the digits typed as its id and keeps its nickname; an edit beyond 19 digits changes nothing; the list then shows the old entry with only the id changed |
| Page.Home.ChangeBlacklistedNickname | app/page.tsx:916 | the entry, in its normalised form, keeps its id and takes the text typed as its nickname; a legacy bare id survives as the id of the stored entry |

## Left out

- The rendering (JSX), the accordion animation, `AnimatedItem` and the layout are not modelled.
- The fetch of `/configs.json` and the POST to `/api/save-config` are not modelled: the fetched document is a parameter of `Loaded`, and the way a save ends is a parameter of `EndSave`.
- The path where the document fails to load (lines 82-85) leaves nothing loaded. It is the constructor's state, so it has no method.
- The `loading` flag and the `setTimeout` that clears the success message after three seconds are not modelled. They are timing and presentation. The save button's `disabled` state (line 445) is not enforced as a precondition.
- Page.Home.EndSave: it requires a loaded draft and a loaded body. The save button is enabled only while there are unsaved changes, which needs a loaded document.
- The server routes, the password check and `app/layout.tsx` are not part of this model.
- `localeCompare` is a parameter of the sorts. Its locale rules are not modelled, and the by-name order is proved only for a consistent `localeCompare`.
- Sorting.SortChannelKeywords: its contract states the order only for the by-discount choice. The by-name order is the separate lemma `SortChannelKeywordsByName`, because it needs an assumption about `localeCompare`.
- Discounts are unbounded integers. `parseInt` yields a floating-point number, which loses precision beyond 2^53; this is not modelled.
- Strings are sequences of Unicode scalar values, not of UTF-16 code units.
- Page.Home mutators: they require the user id to be a key of the loaded document. The page only edits the user selected from the document's own users. For an absent user, `{ ...undefined }` yields a partial object that the datatypes cannot express, and `[...undefined]` throws.
- Page.Home.UpdateChannelKeyword, Page.Home.UpdateNegativeKeyword, Page.Home.UpdateBlacklistedChannel: they require `idx` to be at most the list's length. A write further out would leave holes, and the index -1 that `findIndex` can give would add a stray property. Neither is representable here.
- Page.Home.UpdateChannelId: it requires the old id to be present when the ids differ. Renaming an absent channel would store `undefined`.
- JsObject: keys that look like array indices (such as "42") are enumerated before all other keys in JavaScript. The model keeps plain insertion order for every key.
- The order of the four fields inside a user configuration is fixed by the datatype, so the serialisation comparison is modelled as plain equality.
- The order of the fields inside a keyword entry or a blacklist entry is fixed by the datatypes too. The mutators rebuild `{ keyword, discount }` (line 187) and `{ channel_id, nickname }` (line 322) in that order. A loaded entry whose fields came in the other order serialises differently after an edit that restores its values, so the page flags a change the model does not see.
- JsObject.Assign: the key `__proto__` is treated as an ordinary key. In JavaScript, `obj["__proto__"] = v` sets the object's prototype and adds no property, so a keyword or channel named that way vanishes from the document. The names come from free-text inputs (lines 516, 581, 802).
- Discounts in the loaded document are integers. A fractional discount such as 12.5 would be shown as "12.5" and read back by `parseInt` as 12 (line 584); this is not modelled.
- The editing state of a global keyword (`editingGlobalKeyword`, and the temporary name and discount) is modelled only as the `editing` parameter of the sort and as the arguments of `UpdateGlobalKeyword`. The sort selectors and the accordion open states are plain UI state.
