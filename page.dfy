/**
 * The edit session of the configuration page (`Home` in app/page.tsx): the draft
 * document, the baseline it was loaded or last saved as, the unsaved-changes flag, and
 * the mutators that copy the path to one sub-collection of one user, change one entry
 * and install the new document.
 */
module Page {
  import opened Wrappers
  import opened JsObject
  import opened JsArray
  import opened JsString
  import opened Config
  import opened Sorting

  const EmptyUser := UserConfig([], [], [], [])

  /** `configs[userId]` of a loaded document (the empty configuration stands in for anything else). */
  function UserOf(c: Option<ConfigData>, userId: string): UserConfig {
    if c.None? then EmptyUser else Get(c.value, userId).GetOr(EmptyUser)
  }

  /** `configs[userId].channel_keywords[channelId] || []`. */
  function ChannelListOf(c: Option<ConfigData>, userId: string, channelId: string): seq<ChannelKeyword> {
    Get(UserOf(c, userId).channelKeywords, channelId).GetOr([])
  }

  /**
   * What every mutator does to `configs`: nothing when it is null; otherwise the same
   * users in the same order, `userId` now holding `u`, every other user untouched.
   */
  ghost predicate ReplacesUser(before: Option<ConfigData>, after: Option<ConfigData>, userId: string, u: UserConfig) {
    if before.None? then after == before
    else
      && after.Some?
      && Keys(after.value) == Keys(before.value)
      && Get(after.value, userId) == Some(u)
      && forall other :: other != userId ==> Get(after.value, other) == Get(before.value, other)
  }

  /** `newConfigs[userId] = userConfig` for a user the document holds is such a replacement. */
  lemma InstallUser(doc: ConfigData, userId: string, u: UserConfig)
    requires userId in Keys(doc)
    ensures ReplacesUser(Some(doc), Some(Assign(doc, userId, u)), userId, u)
  {
    AssignKeys(doc, userId, u);
    forall other ensures Get(Assign(doc, userId, u), other) == if other == userId then Some(u) else Get(doc, other) {
      AssignGet(doc, userId, u, other);
    }
  }

  /** How a request to `/api/save-config` ended. */
  datatype SaveOutcome =
    | Saved     // `response.ok`
    | Rejected  // a response that is not ok
    | Failed    // `fetch` threw

  const SavedMessage := "\U{2713} Saved successfully"
  const RejectedMessage := "\U{2717} Failed to save"
  const FailedMessage := "\U{2717} Error saving"

  /** The channel id of a blacklist input (lines 902-906): digits only, and an edit that would make it longer than 19 digits is ignored. */
  function BlacklistIdInput(raw: string): (id: Option<string>)
    ensures id.Some? <==> |DigitsOnly(raw)| <= 19
    ensures id.Some? ==> id.value == DigitsOnly(raw) && AllDigits(id.value)
    ensures AllDigits(raw) && |raw| <= 19 ==> id == Some(raw)
    ensures id.None? ==> |raw| > 19
  {
    var value := DigitsOnly(raw);
    if |value| <= 19 then Some(value) else None
  }

  /** The discount of a channel keyword input (lines 831-832): digits only, and an empty field is 0. */
  function ChannelDiscountInput(raw: string): (d: nat)
    ensures d == ParseIntOrZero(DigitsOnly(raw))
    ensures AllDigits(raw) ==> d == ParseIntOrZero(raw)
    ensures forall n: nat :: raw == DecimalString(n) ==> d == n
  {
    var value := DigitsOnly(raw);
    DecimalRoundTripAll();
    if value == "" then 0 else ParseIntOrZero(value)
  }

  /**
   * A character that is not a digit, typed anywhere into a numeric field, changes
   * neither the blacklist id nor the channel discount the edit produces.
   */
  lemma NonDigitIgnored(before: string, c: char, after: string)
    requires !IsDigit(c)
    ensures BlacklistIdInput(before + [c] + after) == BlacklistIdInput(before + after)
    ensures ChannelDiscountInput(before + [c] + after) == ChannelDiscountInput(before + after)
  {
    DigitsOnlyConcat(before + [c], after);
    DigitsOnlyConcat(before, [c]);
    DigitsOnlyConcat(before, after);
    assert DigitsOnly([c]) == [];
    assert DigitsOnly(before) + [] == DigitsOnly(before);
  }

  /**
   * A digit typed at the end of a channel discount shifts the discount one decimal place
   * up and adds the digit's value; typed at the end of a blacklist id it is appended,
   * unless the id already holds 19 digits.
   */
  lemma DigitAppended(raw: string, c: char)
    requires IsDigit(c)
    ensures ChannelDiscountInput(raw + [c]) == ChannelDiscountInput(raw) * 10 + DigitValue(c)
    ensures |DigitsOnly(raw)| < 19 ==> BlacklistIdInput(raw + [c]) == Some(DigitsOnly(raw) + [c])
    ensures |DigitsOnly(raw)| >= 19 ==> BlacklistIdInput(raw + [c]).None?
  {
    DigitsOnlyConcat(raw, [c]);
    assert DigitsOnly([c]) == [c];
    var v := DigitsOnly(raw) + [c];
    assert v[..|v| - 1] == DigitsOnly(raw);
  }

  /** The blacklist id keeps every digit typed, as often as it was typed, and nothing else. */
  lemma BlacklistIdKeepsDigits(raw: string)
    requires BlacklistIdInput(raw).Some?
    ensures forall c :: multiset(BlacklistIdInput(raw).value)[c] == if IsDigit(c) then multiset(raw)[c] else 0
  {
    DigitsOnlyCounts(raw);
  }

  lemma DecimalRoundTripAll()
    ensures forall n: nat :: ParseIntOrZero(DecimalString(n)) == n
  {
    forall n: nat ensures ParseIntOrZero(DecimalString(n)) == n {
      DecimalRoundTrip(n);
    }
  }

  /**
   * The search of `addNewChannel` (lines 259-264): the smallest counter from 1 up whose
   * `channel-<counter>` is not yet a channel.  It ends because each step passes over a
   * different existing key.
   */
  method FreshChannelId(channels: Record<seq<ChannelKeyword>>) returns (newChannelId: string, counter: nat)
    ensures counter >= 1 && newChannelId == ChannelName(counter)
    ensures newChannelId !in Keys(channels)
    ensures forall n :: 1 <= n < counter ==> ChannelName(n) in Keys(channels)
  {
    counter := 1;
    newChannelId := ChannelName(counter);
    ghost var passed: set<string> := {};
    // `channelKeywords[newChannelId]` is an array, which is truthy, exactly when the key is present
    while newChannelId in Keys(channels)
      invariant counter >= 1 && newChannelId == ChannelName(counter)
      invariant forall n :: 1 <= n < counter ==> ChannelName(n) in Keys(channels)
      invariant passed <= KeySet(channels)
      invariant forall s :: s in passed ==> ChannelIndex(s) < counter
      decreases KeySet(channels) - passed
    {
      ChannelIndexOfName(counter);
      assert newChannelId !in passed;
      passed := passed + {newChannelId};
      TakenExtends(channels, counter);
      counter := counter + 1;
      newChannelId := ChannelName(counter);
    }
  }

  /** Once `channel-<counter>` is taken too, every id below `counter + 1` is taken. */
  lemma TakenExtends(channels: Record<seq<ChannelKeyword>>, counter: nat)
    requires forall n :: 1 <= n < counter ==> ChannelName(n) in Keys(channels)
    requires ChannelName(counter) in Keys(channels)
    ensures forall n :: 1 <= n < counter + 1 ==> ChannelName(n) in Keys(channels)
  {
  }

  /** A keyword shown in a channel's sorted list is found back at a valid index of the stored list (line 816). */
  lemma DisplayedChannelKeywordIndex(keywords: seq<ChannelKeyword>, order: SortBy,
                                     localeCompare: (string, string) -> int, kw: ChannelKeyword)
    requires kw in SortChannelKeywords(keywords, order, localeCompare)
    ensures 0 <= FindIndex(keywords, kw) < |keywords|
    ensures keywords[FindIndex(keywords, kw)] == kw
  {
    assert kw in multiset(SortChannelKeywords(keywords, order, localeCompare));
  }

  /**
   * `deleteChannelKeyword` on one user's channels (lines 220-228): the list loses the
   * element at `idx` and keeps the others in order; a list left empty takes its channel
   * with it.
   */
  lemma DeleteChannelKeywordEffect(channels: Record<seq<ChannelKeyword>>, channelId: string, idx: int)
    requires DistinctKeys(channels)
    requires 0 <= idx < |Get(channels, channelId).GetOr([])|
    ensures var list := Get(channels, channelId).GetOr([]);
      var rest := Splice(list, idx);
      var after := if |rest| == 0 then Delete(channels, channelId) else Assign(channels, channelId, rest);
      && |rest| == |list| - 1
      && (forall j :: 0 <= j < |rest| ==> rest[j] == list[if j < idx then j else j + 1])
      && (|list| == 1 ==> channelId !in Keys(after) && |after| == |channels| - 1)
      && (|list| > 1 ==> Get(after, channelId) == Some(rest) && Keys(after) == Keys(channels))
      && (forall k :: k != channelId ==> Get(after, k) == Get(channels, k))
  {
    var list := Get(channels, channelId).GetOr([]);
    var rest := Splice(list, idx);
    assert channelId in Keys(channels);
    if |rest| == 0 {
      DeleteLength(channels, channelId);
      DeleteGet(channels, channelId, channelId);
      forall k | k != channelId ensures Get(Delete(channels, channelId), k) == Get(channels, k) {
        DeleteGet(channels, channelId, k);
      }
    } else {
      AssignKeys(channels, channelId, rest);
      AssignGet(channels, channelId, rest, channelId);
      forall k | k != channelId ensures Get(Assign(channels, channelId, rest), k) == Get(channels, k) {
        AssignGet(channels, channelId, rest, k);
      }
    }
  }

  /** Writing back the value a key already holds (a discount typed back to what it was) gives the very same document. */
  lemma AssignSameValue<V>(r: Record<V>, k: string, v: V)
    requires Get(r, k) == Some(v)
    ensures Assign(r, k, v) == r
  {
    assert r[IndexOf(r, k)] == Prop(k, v);
  }

  /**
   * Renaming a global keyword away and back restores every key's value but not the
   * order, so the document still differs from its baseline: the unsaved-changes flag
   * compares serialisations, in which key order counts.
   */
  lemma RenameThereAndBack<V>(r: Record<V>, a: string, b: string)
    requires DistinctKeys(r) && a != b && a in Keys(r) && b !in Keys(r)
    requires IndexOf(r, a) < |r| - 1
    ensures var v := Get(r, a).value;
      var r' := Assign(Delete(Assign(Delete(r, a), b, v), b), a, v);
      (forall k :: Get(r', k) == Get(r, k)) && r' != r
  {
    var v := Get(r, a).value;
    var d := Delete(r, a);
    DeleteGet(r, a, b);
    DeleteGet(r, a, a);
    assert Assign(d, b, v) == d + [Prop(b, v)];
    DeleteAppended(d, b, v);
    var r' := Assign(d, a, v);
    assert r' == d + [Prop(a, v)];
    DeleteLength(r, a);
    assert r'[|r| - 1].key == a;
    assert r[|r| - 1].key != a;
    forall k ensures Get(r', k) == Get(r, k) {
      AssignGet(d, a, v, k);
      DeleteGet(r, a, k);
    }
  }

  /** Deleting the key just appended gives back the object before the append. */
  lemma {:induction false} DeleteAppended<V>(d: Record<V>, b: string, v: V)
    requires b !in Keys(d)
    ensures Delete(d + [Prop(b, v)], b) == d
  {
    if d != [] {
      assert (d + [Prop(b, v)])[1..] == d[1..] + [Prop(b, v)];
      DeleteAppended(d[1..], b, v);
    }
  }

  /**
   * The page's state cells: the draft `configs`, the baseline `originalConfigs`, the
   * unsaved-changes flag, the save message, and the new-keyword form.  Every state change
   * is followed by the effect that recomputes the flag (lines 89-93).
   */
  class Home {
    var configs: Option<ConfigData>
    var originalConfigs: Option<ConfigData>
    var hasUnsavedChanges: bool
    var saveMessage: string
    var saving: bool
    var newKeywordInput: string
    var newKeywordDiscount: string
    var showNewKeywordForm: bool

    /**
     * Draft and baseline are loaded together; the flag says exactly whether they differ;
     * the draft is a well-formed document; the new-keyword discount field holds digits.
     */
    ghost predicate Valid()
      reads this
    {
      && (configs.Some? <==> originalConfigs.Some?)
      && hasUnsavedChanges == (configs != originalConfigs)
      && (configs.Some? ==> WellFormed(configs.value))
      && AllDigits(newKeywordDiscount)
    }

    constructor ()
      ensures Valid()
      ensures configs == None && originalConfigs == None && !hasUnsavedChanges && saveMessage == "" && !saving
      ensures newKeywordInput == "" && newKeywordDiscount == "0" && !showNewKeywordForm
    {
      configs := None;
      originalConfigs := None;
      hasUnsavedChanges := false;
      saveMessage := "";
      saving := false;
      newKeywordInput := "";
      newKeywordDiscount := "0";
      showNewKeywordForm := false;
    }

    /** The effect on lines 89-93: once both documents are loaded, the flag is whether they differ. */
    method SyncUnsavedChanges()
      modifies this`hasUnsavedChanges
      ensures configs.Some? && originalConfigs.Some? ==> hasUnsavedChanges == (configs.value != originalConfigs.value)
      ensures configs.None? || originalConfigs.None? ==> hasUnsavedChanges == old(hasUnsavedChanges)
    {
      if configs.Some? && originalConfigs.Some? {
        hasUnsavedChanges := configs.value != originalConfigs.value;
      }
    }

    /** The document fetch succeeded (lines 78-81): draft and baseline are both the fetched document. */
    method Loaded(data: ConfigData)
      requires Valid() && WellFormed(data)
      modifies this`configs, this`originalConfigs, this`hasUnsavedChanges
      ensures Valid()
      ensures configs == Some(data) && originalConfigs == Some(data) && !hasUnsavedChanges
    {
      configs := Some(data);
      originalConfigs := Some(data);
      SyncUnsavedChanges();
    }

    /** `setConfigs(newConfigs)` and the effect that follows it. */
    method SetConfigs(doc: ConfigData)
      requires Valid() && configs.Some? && WellFormed(doc)
      modifies this`configs, this`hasUnsavedChanges
      ensures Valid() && configs == Some(doc)
      ensures hasUnsavedChanges == (Some(doc) != originalConfigs)
    {
      configs := Some(doc);
      SyncUnsavedChanges();
    }

    /**
     * The start of `handleSave` (lines 96-104): the request is marked in flight, the
     * message is cleared, and the draft as it is now is what gets posted.
     */
    method BeginSave() returns (body: Option<ConfigData>)
      requires Valid()
      modifies this`saving, this`saveMessage
      ensures Valid()
      ensures body == configs && saving && saveMessage == ""
    {
      saving := true;
      saveMessage := "";
      body := configs;
    }

    /**
     * The end of `handleSave` (lines 106-120), after edits the page may have taken while
     * the request was in flight: on success the posted document becomes the baseline and
     * the effect that follows flags whatever was edited since; otherwise only the message
     * changes.
     */
    method EndSave(body: Option<ConfigData>, outcome: SaveOutcome)
      requires Valid() && body.Some? && configs.Some?
      modifies this`originalConfigs, this`hasUnsavedChanges, this`saveMessage, this`saving
      ensures Valid() && !saving
      ensures outcome == Saved ==>
        && originalConfigs == body
        && hasUnsavedChanges == (configs != body)
        && saveMessage == SavedMessage
      ensures outcome != Saved ==> originalConfigs == old(originalConfigs) && hasUnsavedChanges == old(hasUnsavedChanges)
      ensures outcome == Rejected ==> saveMessage == RejectedMessage
      ensures outcome == Failed ==> saveMessage == FailedMessage
    {
      saving := false;
      match outcome
      case Saved =>
        saveMessage := SavedMessage;
        originalConfigs := body;
        hasUnsavedChanges := false;
        SyncUnsavedChanges();
      case Rejected =>
        saveMessage := RejectedMessage;
      case Failed =>
        saveMessage := FailedMessage;
    }

    /** A save with no edit while it is in flight: on success the draft is the baseline and nothing is unsaved. */
    method HandleSave(outcome: SaveOutcome) returns (body: Option<ConfigData>)
      requires Valid() && configs.Some?
      modifies this`originalConfigs, this`hasUnsavedChanges, this`saveMessage, this`saving
      ensures Valid() && !saving
      ensures body == configs
      ensures outcome == Saved ==> originalConfigs == configs && !hasUnsavedChanges && saveMessage == SavedMessage
      ensures outcome != Saved ==> originalConfigs == old(originalConfigs) && hasUnsavedChanges == old(hasUnsavedChanges)
    {
      body := BeginSave();
      EndSave(body, outcome);
    }

    /**
     * `updateGlobalKeyword` (lines 123-143): on a committed rename, delete the old key and
     * write the new one; otherwise write the discount under the old key.
     */
    method UpdateGlobalKeyword(userId: string, oldKeyword: string, newKeyword: string, discount: int, isBlur: bool)
      requires Valid()
      requires configs.Some? ==> userId in Keys(configs.value)
      modifies this`configs, this`hasUnsavedChanges
      ensures Valid()
      ensures var u := UserOf(old(configs), userId);
        var g := u.globalKeywords;
        ReplacesUser(old(configs), configs, userId, u.(globalKeywords :=
          if isBlur && oldKeyword != newKeyword then Assign(Delete(g, oldKeyword), newKeyword, KeywordConfig(discount))
          else Assign(g, oldKeyword, KeywordConfig(discount))))
    {
      if configs.None? { return; }
      var newConfigs := configs.value;
      var userConfig := Get(newConfigs, userId).value;
      var globalKeywords := userConfig.globalKeywords;
      if isBlur && oldKeyword != newKeyword {
        globalKeywords := Delete(globalKeywords, oldKeyword);
        DeleteDistinct(userConfig.globalKeywords, oldKeyword);
        globalKeywords := Assign(globalKeywords, newKeyword, KeywordConfig(discount));
        AssignDistinct(Delete(userConfig.globalKeywords, oldKeyword), newKeyword, KeywordConfig(discount));
      } else {
        AssignDistinct(globalKeywords, oldKeyword, KeywordConfig(discount));
        globalKeywords := Assign(globalKeywords, oldKeyword, KeywordConfig(discount));
      }
      Install(userId, userConfig.(globalKeywords := globalKeywords));
    }

    /** `userConfig.<collection> = …; newConfigs[userId] = userConfig; setConfigs(newConfigs)`. */
    method Install(userId: string, u: UserConfig)
      requires Valid() && configs.Some? && userId in Keys(configs.value)
      requires UserWellFormed(u)
      modifies this`configs, this`hasUnsavedChanges
      ensures Valid()
      ensures ReplacesUser(old(configs), configs, userId, u)
    {
      var doc := configs.value;
      InstallUser(doc, userId, u);
      AssignWellFormed(doc, userId, u);
      SetConfigs(Assign(doc, userId, u));
    }

    /** `deleteGlobalKeyword` (lines 145-157). */
    method DeleteGlobalKeyword(userId: string, keyword: string)
      requires Valid()
      requires configs.Some? ==> userId in Keys(configs.value)
      modifies this`configs, this`hasUnsavedChanges
      ensures Valid()
      ensures var u := UserOf(old(configs), userId);
        ReplacesUser(old(configs), configs, userId, u.(globalKeywords := Delete(u.globalKeywords, keyword)))
    {
      if configs.None? { return; }
      var userConfig := Get(configs.value, userId).value;
      var globalKeywords := userConfig.globalKeywords;
      DeleteDistinct(globalKeywords, keyword);
      globalKeywords := Delete(globalKeywords, keyword);
      Install(userId, userConfig.(globalKeywords := globalKeywords));
    }

    /** The keyword-name field of the new-keyword form. */
    method SetNewKeywordInput(raw: string)
      requires Valid()
      modifies this`newKeywordInput
      ensures Valid() && newKeywordInput == raw
    {
      newKeywordInput := raw;
    }

    /** The discount field of the new-keyword form keeps only the digits typed (line 535). */
    method SetNewKeywordDiscount(raw: string)
      requires Valid()
      modifies this`newKeywordDiscount
      ensures Valid() && newKeywordDiscount == DigitsOnly(raw)
    {
      newKeywordDiscount := DigitsOnly(raw);
    }

    /**
     * The reset of the new-keyword form, after an add (lines 174-176) and on Escape or
     * Cancel (lines 519-523): the form closes and both fields are cleared.
     */
    method ResetNewKeywordForm()
      requires Valid()
      modifies this`newKeywordInput, this`newKeywordDiscount, this`showNewKeywordForm
      ensures Valid()
      ensures newKeywordInput == "" && newKeywordDiscount == "0" && !showNewKeywordForm
    {
      showNewKeywordForm := false;
      newKeywordInput := "";
      newKeywordDiscount := "0";
    }

    /**
     * `addGlobalKeyword` (lines 159-177): nothing happens for a name that is blank after
     * trimming; otherwise the trimmed name gets the parsed discount (0 for an empty field)
     * and the form is reset.
     */
    method AddGlobalKeyword(userId: string)
      requires Valid()
      requires configs.Some? ==> userId in Keys(configs.value)
      modifies this`configs, this`hasUnsavedChanges, this`newKeywordInput, this`newKeywordDiscount, this`showNewKeywordForm
      ensures Valid()
      ensures old(configs).None? || Trim(old(newKeywordInput)) == "" ==>
        && configs == old(configs)
        && newKeywordInput == old(newKeywordInput) && newKeywordDiscount == old(newKeywordDiscount)
        && showNewKeywordForm == old(showNewKeywordForm)
      ensures old(configs).Some? && Trim(old(newKeywordInput)) != "" ==>
        && (var u := UserOf(old(configs), userId);
            ReplacesUser(old(configs), configs, userId, u.(globalKeywords :=
              Assign(u.globalKeywords, Trim(old(newKeywordInput)), KeywordConfig(ParseIntOrZero(old(newKeywordDiscount)))))))
        && newKeywordInput == "" && newKeywordDiscount == "0" && !showNewKeywordForm
    {
      var keyword := Trim(newKeywordInput);
      if configs.None? || keyword == "" { return; }
      var discount := KeywordConfig(ParseIntOrZero(newKeywordDiscount));
      var userConfig := Get(configs.value, userId).value;
      assert UserOf(configs, userId) == userConfig;
      var globalKeywords := userConfig.globalKeywords;
      AssignDistinct(globalKeywords, keyword, discount);
      globalKeywords := Assign(globalKeywords, keyword, discount);
      Install(userId, userConfig.(globalKeywords := globalKeywords));
      ResetNewKeywordForm();
    }

    /** `updateChannelKeyword` (lines 179-193): `keywords[idx] = {keyword, discount}` on the channel's list (or a new one). */
    method UpdateChannelKeyword(userId: string, channelId: string, idx: nat, keyword: string, discount: int)
      requires Valid()
      requires configs.Some? ==> userId in Keys(configs.value)
      requires configs.Some? ==> idx <= |ChannelListOf(configs, userId, channelId)|
      modifies this`configs, this`hasUnsavedChanges
      ensures Valid()
      ensures var u := UserOf(old(configs), userId);
        var list := ChannelListOf(old(configs), userId, channelId);
        old(configs).Some? ==>
          ReplacesUser(old(configs), configs, userId, u.(channelKeywords :=
            Assign(u.channelKeywords, channelId, SetIndex(list, idx, ChannelKeyword(keyword, discount)))))
      ensures old(configs).None? ==> configs == old(configs)
    {
      if configs.None? { return; }
      var userConfig := Get(configs.value, userId).value;
      var channelKeywords := userConfig.channelKeywords;
      var keywords := Get(channelKeywords, channelId).GetOr([]);
      keywords := SetIndex(keywords, idx, ChannelKeyword(keyword, discount));
      AssignDistinct(channelKeywords, channelId, keywords);
      channelKeywords := Assign(channelKeywords, channelId, keywords);
      Install(userId, userConfig.(channelKeywords := channelKeywords));
    }

    /**
     * `updateChannelId` (lines 195-212): a different id takes over the old id's list, by
     * deleting the old key and writing the new one.
     */
    method UpdateChannelId(userId: string, oldChannelId: string, newChannelId: string)
      requires Valid()
      requires configs.Some? ==> userId in Keys(configs.value)
      requires configs.Some? && oldChannelId != newChannelId ==> oldChannelId in Keys(UserOf(configs, userId).channelKeywords)
      modifies this`configs, this`hasUnsavedChanges
      ensures Valid()
      ensures var u := UserOf(old(configs), userId);
        var c := u.channelKeywords;
        old(configs).Some? ==>
          ReplacesUser(old(configs), configs, userId, u.(channelKeywords :=
            if oldChannelId == newChannelId then c
            else Assign(Delete(c, oldChannelId), newChannelId, Get(c, oldChannelId).value)))
      ensures old(configs).None? ==> configs == old(configs)
    {
      if configs.None? { return; }
      var userConfig := Get(configs.value, userId).value;
      var channelKeywords := userConfig.channelKeywords;
      if oldChannelId != newChannelId {
        var keywords := Get(channelKeywords, oldChannelId).value;
        RenameKey(channelKeywords, oldChannelId, newChannelId, keywords);
        channelKeywords := Delete(channelKeywords, oldChannelId);
        channelKeywords := Assign(channelKeywords, newChannelId, keywords);
      }
      Install(userId, userConfig.(channelKeywords := channelKeywords));
    }

    /**
     * `deleteChannelKeyword` (lines 214-234): `splice(idx, 1)` on the channel's list, and
     * the channel itself goes when its list is left empty.
     */
    method DeleteChannelKeyword(userId: string, channelId: string, idx: int)
      requires Valid()
      requires configs.Some? ==> userId in Keys(configs.value)
      modifies this`configs, this`hasUnsavedChanges
      ensures Valid()
      ensures var u := UserOf(old(configs), userId);
        var rest := Splice(ChannelListOf(old(configs), userId, channelId), idx);
        ReplacesUser(old(configs), configs, userId, u.(channelKeywords :=
          if |rest| == 0 then Delete(u.channelKeywords, channelId) else Assign(u.channelKeywords, channelId, rest)))
    {
      if configs.None? { return; }
      var userConfig := Get(configs.value, userId).value;
      var channelKeywords := userConfig.channelKeywords;
      var keywords := Get(channelKeywords, channelId).GetOr([]);
      keywords := Splice(keywords, idx);
      if |keywords| == 0 {
        DeleteDistinct(channelKeywords, channelId);
        channelKeywords := Delete(channelKeywords, channelId);
      } else {
        AssignDistinct(channelKeywords, channelId, keywords);
        channelKeywords := Assign(channelKeywords, channelId, keywords);
      }
      Install(userId, userConfig.(channelKeywords := channelKeywords));
    }

    /** `addChannelKeyword` (lines 236-250): push an empty keyword onto the channel's list (or a new one). */
    method AddChannelKeyword(userId: string, channelId: string)
      requires Valid()
      requires configs.Some? ==> userId in Keys(configs.value)
      modifies this`configs, this`hasUnsavedChanges
      ensures Valid()
      ensures var u := UserOf(old(configs), userId);
        var list := ChannelListOf(old(configs), userId, channelId);
        ReplacesUser(old(configs), configs, userId, u.(channelKeywords :=
          Assign(u.channelKeywords, channelId, list + [ChannelKeyword("", 0)])))
    {
      if configs.None? { return; }
      var userConfig := Get(configs.value, userId).value;
      var channelKeywords := userConfig.channelKeywords;
      var keywords := Get(channelKeywords, channelId).GetOr([]);
      keywords := keywords + [ChannelKeyword("", 0)];
      AssignDistinct(channelKeywords, channelId, keywords);
      channelKeywords := Assign(channelKeywords, channelId, keywords);
      Install(userId, userConfig.(channelKeywords := channelKeywords));
    }

    /**
     * `addNewChannel` (lines 252-271): a channel under the first free `channel-<n>` id,
     * holding one empty keyword, appended after the existing channels.
     */
    method AddNewChannel(userId: string)
      requires Valid()
      requires configs.Some? ==> userId in Keys(configs.value)
      modifies this`configs, this`hasUnsavedChanges
      ensures Valid()
      ensures old(configs).None? ==> configs == old(configs)
      ensures old(configs).Some? ==>
        var u := UserOf(old(configs), userId);
        exists n: nat ::
          && n >= 1
          && ChannelName(n) !in Keys(u.channelKeywords)
          && (forall m :: 1 <= m < n ==> ChannelName(m) in Keys(u.channelKeywords))
          && ReplacesUser(old(configs), configs, userId, u.(channelKeywords :=
               u.channelKeywords + [Prop(ChannelName(n), [ChannelKeyword("", 0)])]))
    {
      if configs.None? { return; }
      var userConfig := Get(configs.value, userId).value;
      var channelKeywords := userConfig.channelKeywords;
      var newChannelId, counter := FreshChannelId(channelKeywords);
      AssignDistinct(channelKeywords, newChannelId, [ChannelKeyword("", 0)]);
      channelKeywords := Assign(channelKeywords, newChannelId, [ChannelKeyword("", 0)]);
      Install(userId, userConfig.(channelKeywords := channelKeywords));
    }

    /** `updateNegativeKeyword` (lines 273-285): `negativeKeywords[idx] = keyword`. */
    method UpdateNegativeKeyword(userId: string, idx: nat, keyword: string)
      requires Valid()
      requires configs.Some? ==> userId in Keys(configs.value)
      requires configs.Some? ==> idx <= |UserOf(configs, userId).negativeKeywords|
      modifies this`configs, this`hasUnsavedChanges
      ensures Valid()
      ensures var u := UserOf(old(configs), userId);
        old(configs).Some? ==>
          ReplacesUser(old(configs), configs, userId, u.(negativeKeywords := SetIndex(u.negativeKeywords, idx, keyword)))
      ensures old(configs).None? ==> configs == old(configs)
    {
      if configs.None? { return; }
      var userConfig := Get(configs.value, userId).value;
      var negativeKeywords := SetIndex(userConfig.negativeKeywords, idx, keyword);
      Install(userId, userConfig.(negativeKeywords := negativeKeywords));
    }

    /** `deleteNegativeKeyword` (lines 287-299): `negativeKeywords.splice(idx, 1)`. */
    method DeleteNegativeKeyword(userId: string, idx: int)
      requires Valid()
      requires configs.Some? ==> userId in Keys(configs.value)
      modifies this`configs, this`hasUnsavedChanges
      ensures Valid()
      ensures var u := UserOf(old(configs), userId);
        ReplacesUser(old(configs), configs, userId, u.(negativeKeywords := Splice(u.negativeKeywords, idx)))
    {
      if configs.None? { return; }
      var userConfig := Get(configs.value, userId).value;
      var negativeKeywords := Splice(userConfig.negativeKeywords, idx);
      Install(userId, userConfig.(negativeKeywords := negativeKeywords));
    }

    /** `addNegativeKeyword` (lines 301-313): push an empty keyword. */
    method AddNegativeKeyword(userId: string)
      requires Valid()
      requires configs.Some? ==> userId in Keys(configs.value)
      modifies this`configs, this`hasUnsavedChanges
      ensures Valid()
      ensures var u := UserOf(old(configs), userId);
        ReplacesUser(old(configs), configs, userId, u.(negativeKeywords := u.negativeKeywords + [""]))
    {
      if configs.None? { return; }
      var userConfig := Get(configs.value, userId).value;
      var negativeKeywords := userConfig.negativeKeywords + [""];
      Install(userId, userConfig.(negativeKeywords := negativeKeywords));
    }

    /** `updateBlacklistedChannel` (lines 315-327): `blacklistedChannels[idx] = {channel_id, nickname}`. */
    method UpdateBlacklistedChannel(userId: string, idx: nat, channelId: string, nickname: string)
      requires Valid()
      requires configs.Some? ==> userId in Keys(configs.value)
      requires configs.Some? ==> idx <= |UserOf(configs, userId).blacklistedChannels|
      modifies this`configs, this`hasUnsavedChanges
      ensures Valid()
      ensures var u := UserOf(old(configs), userId);
        old(configs).Some? ==>
          ReplacesUser(old(configs), configs, userId, u.(blacklistedChannels :=
            SetIndex(u.blacklistedChannels, idx, Structured(BlacklistedChannel(channelId, nickname)))))
      ensures old(configs).None? ==> configs == old(configs)
    {
      if configs.None? { return; }
      var userConfig := Get(configs.value, userId).value;
      var blacklistedChannels := SetIndex(userConfig.blacklistedChannels, idx, Structured(BlacklistedChannel(channelId, nickname)));
      Install(userId, userConfig.(blacklistedChannels := blacklistedChannels));
    }

    /** `deleteBlacklistedChannel` (lines 329-341): `blacklistedChannels.splice(idx, 1)`. */
    method DeleteBlacklistedChannel(userId: string, idx: int)
      requires Valid()
      requires configs.Some? ==> userId in Keys(configs.value)
      modifies this`configs, this`hasUnsavedChanges
      ensures Valid()
      ensures var u := UserOf(old(configs), userId);
        ReplacesUser(old(configs), configs, userId, u.(blacklistedChannels := Splice(u.blacklistedChannels, idx)))
    {
      if configs.None? { return; }
      var userConfig := Get(configs.value, userId).value;
      var blacklistedChannels := Splice(userConfig.blacklistedChannels, idx);
      Install(userId, userConfig.(blacklistedChannels := blacklistedChannels));
    }

    /** `addBlacklistedChannel` (lines 343-355): push an entry with empty id and nickname. */
    method AddBlacklistedChannel(userId: string)
      requires Valid()
      requires configs.Some? ==> userId in Keys(configs.value)
      modifies this`configs, this`hasUnsavedChanges
      ensures Valid()
      ensures var u := UserOf(old(configs), userId);
        ReplacesUser(old(configs), configs, userId, u.(blacklistedChannels :=
          u.blacklistedChannels + [Structured(BlacklistedChannel("", ""))]))
    {
      if configs.None? { return; }
      var userConfig := Get(configs.value, userId).value;
      var blacklistedChannels := userConfig.blacklistedChannels + [Structured(BlacklistedChannel("", ""))];
      Install(userId, userConfig.(blacklistedChannels := blacklistedChannels));
    }

    /**
     * The discount input of a channel keyword (lines 830-833): the keyword at `idx` keeps
     * its text and gets the digits typed as its discount.
     */
    method ChangeChannelKeywordDiscount(userId: string, channelId: string, idx: nat, raw: string)
      requires Valid() && configs.Some? && userId in Keys(configs.value)
      requires idx < |ChannelListOf(configs, userId, channelId)|
      modifies this`configs, this`hasUnsavedChanges
      ensures Valid()
      ensures var u := UserOf(old(configs), userId);
        var list := ChannelListOf(old(configs), userId, channelId);
        ReplacesUser(old(configs), configs, userId, u.(channelKeywords :=
          Assign(u.channelKeywords, channelId, list[idx := list[idx].(discount := ChannelDiscountInput(raw))])))
    {
      var kw := ChannelListOf(configs, userId, channelId)[idx];
      UpdateChannelKeyword(userId, channelId, idx, kw.keyword, ChannelDiscountInput(raw));
    }

    /**
     * The channel-id input of a blacklist entry (lines 902-906): the entry, shown in its
     * normalised form, gets the digits typed as its id and keeps its nickname; an edit
     * that would exceed 19 digits changes nothing.
     */
    method ChangeBlacklistedChannelId(userId: string, idx: nat, raw: string)
      requires Valid() && configs.Some? && userId in Keys(configs.value)
      requires idx < |UserOf(configs, userId).blacklistedChannels|
      modifies this`configs, this`hasUnsavedChanges
      ensures Valid()
      ensures var u := UserOf(old(configs), userId);
        var shown := ChannelData(u.blacklistedChannels[idx]);
        match BlacklistIdInput(raw)
        case None => configs == old(configs)
        case Some(id) =>
          ReplacesUser(old(configs), configs, userId, u.(blacklistedChannels :=
            u.blacklistedChannels[idx := Structured(BlacklistedChannel(id, shown.nickname))]))
      ensures var shown := ChannelData(UserOf(old(configs), userId).blacklistedChannels[idx]);
        && idx < |UserOf(configs, userId).blacklistedChannels|
        && ChannelData(UserOf(configs, userId).blacklistedChannels[idx]) ==
             match BlacklistIdInput(raw) case None => shown case Some(id) => shown.(channelId := id)
    {
      var channelData := ChannelData(UserOf(configs, userId).blacklistedChannels[idx]);
      match BlacklistIdInput(raw)
      case Some(value) =>
        UpdateBlacklistedChannel(userId, idx, value, channelData.nickname);
      case None =>
    }

    /** The nickname input of a blacklist entry (line 916): the entry, shown in its normalised form, keeps its id and takes the text typed. */
    method ChangeBlacklistedNickname(userId: string, idx: nat, raw: string)
      requires Valid() && configs.Some? && userId in Keys(configs.value)
      requires idx < |UserOf(configs, userId).blacklistedChannels|
      modifies this`configs, this`hasUnsavedChanges
      ensures Valid()
      ensures var u := UserOf(old(configs), userId);
        var shown := ChannelData(u.blacklistedChannels[idx]);
        ReplacesUser(old(configs), configs, userId, u.(blacklistedChannels :=
          u.blacklistedChannels[idx := Structured(BlacklistedChannel(shown.channelId, raw))]))
      ensures var before := UserOf(old(configs), userId).blacklistedChannels[idx];
        && idx < |UserOf(configs, userId).blacklistedChannels|
        && ChannelData(UserOf(configs, userId).blacklistedChannels[idx]) == ChannelData(before).(nickname := raw)
        && (before.LegacyId? ==> UserOf(configs, userId).blacklistedChannels[idx] == Structured(BlacklistedChannel(before.id, raw)))
    {
      var channelData := ChannelData(UserOf(configs, userId).blacklistedChannels[idx]);
      UpdateBlacklistedChannel(userId, idx, channelData.channelId, raw);
    }
  }
}
