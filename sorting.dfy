/**
 * The display orders of the page: global keywords by name or by discount with the
 * entries being edited (or still unnamed) kept last, and a channel's keywords by name
 * or by discount.  `Array.prototype.sort` is stable, and is modelled by a stable
 * insertion sort driven by the same comparator; `localeCompare` is a parameter.
 */
module Sorting {
  import opened Wrappers
  import opened JsObject
  import opened Config

  /** The two choices of the sort selectors. */
  datatype SortBy = ByName | ByDiscount

  /** A comparator never puts each of two elements strictly before the other. */
  ghost predicate Asymmetric<T(!new)>(cmp: (T, T) -> int) {
    forall a, b :: cmp(a, b) < 0 ==> cmp(b, a) >= 0
  }

  /** No element is strictly before its predecessor. */
  ghost predicate Ordered<T>(s: seq<T>, cmp: (T, T) -> int) {
    forall i :: 0 < i < |s| ==> cmp(s[i], s[i - 1]) >= 0
  }

  /** Put `x` after every element it is not strictly before. */
  function Insert<T>(x: T, s: seq<T>, cmp: (T, T) -> int): (r: seq<T>)
    ensures multiset(r) == multiset(s) + multiset{x}
    ensures r[0] == x || (s != [] && r[0] == s[0])
  {
    if s == [] then [x]
    else if cmp(x, s[0]) < 0 then [x] + s
    else
      assert s == [s[0]] + s[1..];
      [s[0]] + Insert(x, s[1..], cmp)
  }

  /** A stable sort: each element is inserted, in input order, after its equals. */
  function Sort<T>(s: seq<T>, cmp: (T, T) -> int): (r: seq<T>)
    ensures multiset(r) == multiset(s)
  {
    if s == [] then []
    else
      assert s == s[..|s| - 1] + [s[|s| - 1]];
      Insert(s[|s| - 1], Sort(s[..|s| - 1], cmp), cmp)
  }

  lemma {:induction false} InsertOrdered<T(!new)>(x: T, s: seq<T>, cmp: (T, T) -> int)
    requires Asymmetric(cmp) && Ordered(s, cmp)
    ensures Ordered(Insert(x, s, cmp), cmp)
  {
    if s != [] && cmp(x, s[0]) >= 0 {
      InsertOrdered(x, s[1..], cmp);
    }
  }

  /** With a consistent comparator the sorted list has no element before a smaller one. */
  lemma {:induction false} SortOrdered<T(!new)>(s: seq<T>, cmp: (T, T) -> int)
    requires Asymmetric(cmp)
    ensures Ordered(Sort(s, cmp), cmp)
  {
    if s != [] {
      SortOrdered(s[..|s| - 1], cmp);
      InsertOrdered(s[|s| - 1], Sort(s[..|s| - 1], cmp), cmp);
    }
  }

  /** `entries.filter(x => p(x) == keep)`. */
  function Filter<T>(s: seq<T>, p: T -> bool, keep: bool): (r: seq<T>)
    ensures forall x :: x in r ==> x in s && p(x) == keep
    ensures forall i :: 0 <= i < |s| && p(s[i]) == keep ==> s[i] in r
  {
    if s == [] then []
    else
      assert s == [s[0]] + s[1..];
      if p(s[0]) == keep then [s[0]] + Filter(s[1..], p, keep) else Filter(s[1..], p, keep)
  }

  /** `filter` keeps the input order: filtering a concatenation filters each part and concatenates the results. */
  lemma {:induction false} FilterConcat<T>(a: seq<T>, b: seq<T>, p: T -> bool, keep: bool)
    ensures Filter(a + b, p, keep) == Filter(a, p, keep) + Filter(b, p, keep)
  {
    if a != [] {
      var ab := a + b;
      assert ab[0] == a[0] && ab[1..] == a[1..] + b;
      FilterConcat(a[1..], b, p, keep);
      var head := if p(a[0]) == keep then [a[0]] else [];
      assert Filter(ab, p, keep) == head + Filter(a[1..] + b, p, keep);
      assert Filter(a, p, keep) == head + Filter(a[1..], p, keep);
    } else {
      assert a + b == b;
    }
  }

  /** A filter and its complement split a list without losing or adding an element. */
  lemma {:induction false} FilterSplit<T>(s: seq<T>, p: T -> bool)
    ensures multiset(Filter(s, p, true)) + multiset(Filter(s, p, false)) == multiset(s)
  {
    if s != [] {
      FilterSplit(s[1..], p);
      assert s == [s[0]] + s[1..];
    }
  }

  /** A global keyword goes last while it is the one being edited, or while it has no name. */
  predicate BeingEdited(key: string, editing: Option<string>) {
    key == "" || editing == Some(key)
  }

  function EditedTest(editing: Option<string>): Prop<KeywordConfig> -> bool {
    (e: Prop<KeywordConfig>) => BeingEdited(e.key, editing)
  }

  /** The comparator `sortGlobalKeywords` hands to `sort` for the chosen order. */
  function GlobalOrder(order: SortBy, localeCompare: (string, string) -> int)
    : (cmp: (Prop<KeywordConfig>, Prop<KeywordConfig>) -> int)
    ensures order == ByName ==> forall a, b :: cmp(a, b) == localeCompare(a.key, b.key)
    ensures order == ByDiscount ==> forall a, b :: cmp(a, b) < 0 <==> a.value.discount > b.value.discount
    ensures order == ByDiscount ==> forall a, b :: cmp(a, b) == 0 <==> a.value.discount == b.value.discount
  {
    match order
    case ByName => (a: Prop<KeywordConfig>, b: Prop<KeywordConfig>) => localeCompare(a.key, b.key)
    case ByDiscount => (a: Prop<KeywordConfig>, b: Prop<KeywordConfig>) => b.value.discount - a.value.discount
  }

  /** The comparator `sortChannelKeywords` hands to `sort` for the chosen order. */
  function ChannelOrder(order: SortBy, localeCompare: (string, string) -> int)
    : (cmp: (ChannelKeyword, ChannelKeyword) -> int)
    ensures order == ByName ==> forall a, b :: cmp(a, b) == localeCompare(a.keyword, b.keyword)
    ensures order == ByDiscount ==> forall a, b :: cmp(a, b) < 0 <==> a.discount > b.discount
    ensures order == ByDiscount ==> forall a, b :: cmp(a, b) == 0 <==> a.discount == b.discount
  {
    match order
    case ByName => (a: ChannelKeyword, b: ChannelKeyword) => localeCompare(a.keyword, b.keyword)
    case ByDiscount => (a: ChannelKeyword, b: ChannelKeyword) => b.discount - a.discount
  }

  /** Both comparators are consistent when `localeCompare` is; the discount one always is. */
  lemma OrdersAsymmetric(order: SortBy, localeCompare: (string, string) -> int)
    requires order == ByName ==> Asymmetric(localeCompare)
    ensures Asymmetric(GlobalOrder(order, localeCompare))
    ensures Asymmetric(ChannelOrder(order, localeCompare))
  {
    if order == ByName {
      var g := GlobalOrder(order, localeCompare);
      forall a, b | g(a, b) < 0 ensures g(b, a) >= 0 {
        assert g(a, b) == localeCompare(a.key, b.key);
      }
      var c := ChannelOrder(order, localeCompare);
      forall a, b | c(a, b) < 0 ensures c(b, a) >= 0 {
        assert c(a, b) == localeCompare(a.keyword, b.keyword);
      }
    }
  }

  /**
   * `sortGlobalKeywords`: the entries not being edited, sorted, then the entries being
   * edited in their original order.
   */
  function SortGlobalKeywords(keywords: Record<KeywordConfig>, editing: Option<string>,
                              order: SortBy, localeCompare: (string, string) -> int)
    : (r: Record<KeywordConfig>)
    ensures multiset(r) == multiset(keywords)
    ensures forall i, j :: 0 <= i < j < |r| && BeingEdited(r[i].key, editing) ==> BeingEdited(r[j].key, editing)
    ensures var edited := Filter(keywords, EditedTest(editing), true);
      |edited| <= |r| && r[|r| - |edited|..] == edited
  {
    var edited := Filter(keywords, EditedTest(editing), true);
    var sorted := Sort(Filter(keywords, EditedTest(editing), false), GlobalOrder(order, localeCompare));
    GlobalParts(keywords, editing, order, localeCompare);
    EditedLast(sorted, edited, editing);
    assert (sorted + edited)[|sorted|..] == edited;
    sorted + edited
  }

  /** The two parts `sortGlobalKeywords` concatenates split the entries by whether they are being edited. */
  lemma GlobalParts(keywords: Record<KeywordConfig>, editing: Option<string>,
                    order: SortBy, localeCompare: (string, string) -> int)
    ensures var edited := Filter(keywords, EditedTest(editing), true);
      var sorted := Sort(Filter(keywords, EditedTest(editing), false), GlobalOrder(order, localeCompare));
      && multiset(sorted + edited) == multiset(keywords)
      && (forall e :: e in sorted ==> !BeingEdited(e.key, editing))
      && (forall e :: e in edited ==> BeingEdited(e.key, editing))
  {
    var edited := Filter(keywords, EditedTest(editing), true);
    var others := Filter(keywords, EditedTest(editing), false);
    var sorted := Sort(others, GlobalOrder(order, localeCompare));
    FilterSplit(keywords, EditedTest(editing));
    assert multiset(sorted + edited) == multiset(sorted) + multiset(edited);
    assert forall e :: e in others ==> !BeingEdited(e.key, editing);
    forall e | e in sorted ensures !BeingEdited(e.key, editing) {
      assert e in multiset(sorted);
    }
  }

  lemma EditedLast(sorted: Record<KeywordConfig>, edited: Record<KeywordConfig>, editing: Option<string>)
    requires forall e :: e in sorted ==> !BeingEdited(e.key, editing)
    requires forall e :: e in edited ==> BeingEdited(e.key, editing)
    ensures var r := sorted + edited;
      forall i, j :: 0 <= i < j < |r| && BeingEdited(r[i].key, editing) ==> BeingEdited(r[j].key, editing)
  {
    var r := sorted + edited;
    forall k | 0 <= k < |sorted| ensures !BeingEdited(r[k].key, editing) {
      assert r[k] == sorted[k];
    }
    forall i, j | 0 <= i < j < |r| && BeingEdited(r[i].key, editing)
      ensures BeingEdited(r[j].key, editing)
    {
      assert r[j] == edited[j - |sorted|];
    }
  }

  /** The entries that are not being edited come out in the chosen order. */
  lemma SortGlobalKeywordsOrdered(keywords: Record<KeywordConfig>, editing: Option<string>,
                                  order: SortBy, localeCompare: (string, string) -> int)
    requires order == ByName ==> Asymmetric(localeCompare)
    ensures var r := SortGlobalKeywords(keywords, editing, order, localeCompare);
      var edited := Filter(keywords, EditedTest(editing), true);
      Ordered(r[..|r| - |edited|], GlobalOrder(order, localeCompare))
  {
    OrdersAsymmetric(order, localeCompare);
    var others := Filter(keywords, EditedTest(editing), false);
    SortOrdered(others, GlobalOrder(order, localeCompare));
    var r := SortGlobalKeywords(keywords, editing, order, localeCompare);
    var edited := Filter(keywords, EditedTest(editing), true);
    assert r[..|r| - |edited|] == Sort(others, GlobalOrder(order, localeCompare));
  }

  /** `sortChannelKeywords`: a sorted copy of one channel's list. */
  function SortChannelKeywords(keywords: seq<ChannelKeyword>, order: SortBy,
                               localeCompare: (string, string) -> int)
    : (r: seq<ChannelKeyword>)
    ensures multiset(r) == multiset(keywords)
    ensures order == ByDiscount ==> Ordered(r, ChannelOrder(order, localeCompare))
  {
    if order == ByDiscount then
      OrdersAsymmetric(order, localeCompare);
      SortOrdered(keywords, ChannelOrder(order, localeCompare));
      Sort(keywords, ChannelOrder(order, localeCompare))
    else
      Sort(keywords, ChannelOrder(order, localeCompare))
  }

  /** Sorted by name, a channel's keywords follow `localeCompare` whenever it is consistent. */
  lemma SortChannelKeywordsByName(keywords: seq<ChannelKeyword>, localeCompare: (string, string) -> int)
    requires Asymmetric(localeCompare)
    ensures Ordered(SortChannelKeywords(keywords, ByName, localeCompare), ChannelOrder(ByName, localeCompare))
  {
    OrdersAsymmetric(ByName, localeCompare);
    SortOrdered(keywords, ChannelOrder(ByName, localeCompare));
  }
}
