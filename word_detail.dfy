/**
 * Data preparation of the word-detail view: the forms of a root word are grouped by the
 * category of their form type, the tense group is re-sorted singular-before-plural and
 * then by person, each group is split into a three-form preview and a remainder, labelled
 * from a fixed table, and every form row gets a description and at most one example.
 */
module WordDetail {
  import opened Wrappers
  import opened Records
  import opened Schema
  import opened Text
  import Expandable

  // ── Constants ──────────────────────────────────────────────────────────────

  const PreviewCount: nat := 3

  /** The icons of the category table; they only identify which picture is drawn. */
  datatype Icon = Layers | Timer | BookOpen | FileText | TrendingUp | TypeIcon | MoreHorizontal

  datatype CategoryMeta = CategoryMeta(caption: string, icon: Icon)

  const CategoryMetaTable: map<string, CategoryMeta> := map[
    "case" := CategoryMeta("Cases", Layers),
    "tense" := CategoryMeta("Tenses", Timer),
    "mood" := CategoryMeta("Moods", BookOpen),
    "participle" := CategoryMeta("Participles", FileText),
    "degree" := CategoryMeta("Degrees", TrendingUp),
    "verbal_noun" := CategoryMeta("Verbal Noun", TypeIcon),
    "other" := CategoryMeta("Other", MoreHorizontal)
  ]

  const PluralityOrder: map<string, int> := map["singular" := 0, "plural" := 1]
  const PersonOrder: map<string, int> := map["1" := 0, "2" := 1, "3" := 2]
  const PersonOrdinals: map<string, string> := map["1" := "1st", "2" := "2nd", "3" := "3rd"]

  /** The rank given to a plurality or person that the order tables do not list. */
  const UnlistedRank: int := 99

  // ── Category metadata ──────────────────────────────────────────────────────

  /** `CATEGORY_META[category] ?? CATEGORY_META.other`. */
  function MetaFor(category: string): (m: CategoryMeta)
    ensures category in CategoryMetaTable ==> m == CategoryMetaTable[category]
    ensures category !in CategoryMetaTable ==> m == CategoryMeta("Other", MoreHorizontal)
  {
    if category in CategoryMetaTable then CategoryMetaTable[category] else CategoryMetaTable["other"]
  }

  /**
   * Over the database's categories, only `voice` falls back to the "Other" label; every
   * other category has its own.
   */
  lemma MetaOfSchemaCategory(c: FormTypeCategory)
    ensures MetaFor(c.Name()).caption == "Other" <==> c == Voice
    ensures c == Tense ==> MetaFor(c.Name()) == CategoryMeta("Tenses", Timer)
  {
  }

  // ── Ordering of tense forms ────────────────────────────────────────────────

  /** `PLURALITY_ORDER[p] ?? 99`. */
  function PluralityRank(plurality: string): (rank: int)
    ensures 0 <= rank <= UnlistedRank
    ensures rank < UnlistedRank <==> plurality in PluralityOrder
  {
    if plurality in PluralityOrder then PluralityOrder[plurality] else UnlistedRank
  }

  /** `PERSON_ORDER[person ?? ''] ?? 99`. */
  function PersonRank(person: Option<string>): (rank: int)
    ensures 0 <= rank <= UnlistedRank
    ensures rank < UnlistedRank <==> person.Some? && person.value in PersonOrder
  {
    var key := person.GetOr("");
    if key in PersonOrder then PersonOrder[key] else UnlistedRank
  }

  /** The comparator handed to `Array.prototype.sort`: the plurality difference, else the person difference. */
  function Compare(a: WordForm, b: WordForm): (order: int)
    ensures order == 0 <==> PluralityRank(a.plurality) == PluralityRank(b.plurality) && PersonRank(a.person) == PersonRank(b.person)
    ensures order < 0 <==> PluralityRank(a.plurality) < PluralityRank(b.plurality)
                           || (PluralityRank(a.plurality) == PluralityRank(b.plurality) && PersonRank(a.person) < PersonRank(b.person))
  {
    var pluralityDiff := PluralityRank(a.plurality) - PluralityRank(b.plurality);
    if pluralityDiff != 0 then pluralityDiff else PersonRank(a.person) - PersonRank(b.person)
  }

  /** The two-level sort key of a form: (plurality rank, person rank). */
  function Rank(f: WordForm): (int, int) {
    (PluralityRank(f.plurality), PersonRank(f.person))
  }

  /** The comparator's arithmetic on two keys: the first difference, else the second. */
  function CompareKeys(p: (int, int), q: (int, int)): int {
    if p.0 - q.0 != 0 then p.0 - q.0 else p.1 - q.1
  }

  /** The comparator is the key comparison of the forms' ranks. */
  lemma CompareIsRankComparison(a: WordForm, b: WordForm)
    ensures Compare(a, b) == CompareKeys(Rank(a), Rank(b))
  {
  }

  /** The key comparison is antisymmetric, zero exactly on equal keys, and transitive. */
  lemma CompareKeysOrder(p: (int, int), q: (int, int), r: (int, int))
    ensures CompareKeys(q, p) == -CompareKeys(p, q)
    ensures CompareKeys(p, q) == 0 <==> p == q
    ensures CompareKeys(p, q) <= 0 && CompareKeys(q, r) <= 0 ==> CompareKeys(p, r) <= 0
  {
  }

  /** Both schema pluralities and persons rank ahead of anything unlisted, in reading order. */
  lemma SchemaRanks()
    ensures PluralityRank(Singular.Name()) < PluralityRank(Plural.Name()) < UnlistedRank
    ensures PersonRank(Some(First.Name())) < PersonRank(Some(Second.Name())) < PersonRank(Some(Third.Name())) < UnlistedRank
    ensures PersonRank(None) == UnlistedRank && PersonRank(Some("")) == UnlistedRank
  {
  }

  /** `s` is ordered by `key` under the comparator: no later element has a smaller key. */
  ghost predicate SortedBy<T>(s: seq<T>, key: T -> (int, int)) {
    forall i, j {:trigger CompareKeys(key(s[i]), key(s[j]))} :: 0 <= i < j < |s| ==> CompareKeys(key(s[i]), key(s[j])) <= 0
  }

  /** The elements of `s` whose key is `k`, in the order of `s`. */
  function WithKey<T>(s: seq<T>, key: T -> (int, int), k: (int, int)): seq<T> {
    if s == [] then [] else (if key(s[0]) == k then [s[0]] else []) + WithKey(s[1..], key, k)
  }

  /** Stable insertion: `x` goes after every element of `s` whose key is not greater. */
  function InsertByKey<T>(x: T, s: seq<T>, key: T -> (int, int)): seq<T> {
    if s == [] then [x]
    else if CompareKeys(key(x), key(s[0])) < 0 then [x] + s
    else [s[0]] + InsertByKey(x, s[1..], key)
  }

  /** Insertion sort; a later element is inserted after the earlier ones of equal key. */
  function SortByKey<T>(s: seq<T>, key: T -> (int, int)): seq<T> {
    if s == [] then [] else InsertByKey(s[|s| - 1], SortByKey(s[..|s| - 1], key), key)
  }

  /**
   * `sortForms`: every category except `tense` keeps its order; a tense group comes back
   * as a permutation sorted by (plurality rank, person rank) in which forms of equal rank
   * keep their input order, as a stable `Array.prototype.sort` on a copy leaves them.
   */
  function SortForms(category: string, forms: seq<WordForm>): (r: seq<WordForm>)
    ensures multiset(r) == multiset(forms)
    ensures category != "tense" ==> r == forms
    ensures category == "tense" ==> SortedBy(r, Rank)
    ensures category == "tense" ==> forall k :: WithKey(r, Rank, k) == WithKey(forms, Rank, k)
  {
    if category != "tense" then forms
    else
      SortPermutation(forms, Rank);
      SortSorted(forms, Rank);
      SortStable(forms, Rank);
      SortByKey(forms, Rank)
  }

  lemma {:induction false} InsertPermutation<T>(x: T, s: seq<T>, key: T -> (int, int))
    ensures multiset(InsertByKey(x, s, key)) == multiset(s) + multiset{x}
  {
    if s != [] && CompareKeys(key(x), key(s[0])) >= 0 {
      InsertPermutation(x, s[1..], key);
      assert s == [s[0]] + s[1..];
    }
  }

  lemma {:induction false} SortPermutation<T>(s: seq<T>, key: T -> (int, int))
    ensures multiset(SortByKey(s, key)) == multiset(s)
  {
    if s != [] {
      SortPermutation(s[..|s| - 1], key);
      InsertPermutation(s[|s| - 1], SortByKey(s[..|s| - 1], key), key);
      assert s == s[..|s| - 1] + [s[|s| - 1]];
    }
  }

  /** Every element of the insertion result is `x` or an element of `s`. */
  lemma InsertMembers<T>(x: T, s: seq<T>, key: T -> (int, int), e: T)
    ensures e in InsertByKey(x, s, key) <==> e == x || e in s
  {
    InsertPermutation(x, s, key);
    assert e in InsertByKey(x, s, key) <==> e in multiset(InsertByKey(x, s, key));
  }

  lemma {:induction false} InsertSorted<T>(x: T, s: seq<T>, key: T -> (int, int))
    requires SortedBy(s, key)
    ensures SortedBy(InsertByKey(x, s, key), key)
  {
    if s == [] {
    } else if CompareKeys(key(x), key(s[0])) < 0 {
      var r := [x] + s;
      forall i, j | 0 <= i < j < |r| ensures CompareKeys(key(r[i]), key(r[j])) <= 0 {
        if i == 0 && j > 1 {
          CompareKeysOrder(key(x), key(s[0]), key(s[j - 1]));
        }
      }
    } else {
      var tail := InsertByKey(x, s[1..], key);
      InsertSorted(x, s[1..], key);
      CompareKeysOrder(key(x), key(s[0]), key(s[0]));
      var r := [s[0]] + tail;
      forall i, j | 0 <= i < j < |r| ensures CompareKeys(key(r[i]), key(r[j])) <= 0 {
        if i == 0 {
          InsertMembers(x, s[1..], key, r[j]);
          if r[j] != x {
            var m :| 0 <= m < |s[1..]| && s[1..][m] == r[j];
            assert s[m + 1] == r[j];
          }
        }
      }
    }
  }

  lemma {:induction false} SortSorted<T>(s: seq<T>, key: T -> (int, int))
    ensures SortedBy(SortByKey(s, key), key)
  {
    if s != [] {
      SortSorted(s[..|s| - 1], key);
      InsertSorted(s[|s| - 1], SortByKey(s[..|s| - 1], key), key);
    }
  }

  lemma {:induction false} WithKeyAppend<T>(a: seq<T>, b: seq<T>, key: T -> (int, int), k: (int, int))
    ensures WithKey(a + b, key, k) == WithKey(a, key, k) + WithKey(b, key, k)
  {
    if a == [] {
      assert a + b == b;
    } else {
      var head := if key(a[0]) == k then [a[0]] else [];
      WithKeyAppend(a[1..], b, key, k);
      assert (a + b)[0] == a[0];
      assert (a + b)[1..] == a[1..] + b;
      assert WithKey(a + b, key, k) == head + WithKey(a[1..] + b, key, k);
      assert WithKey(a, key, k) == head + WithKey(a[1..], key, k);
    }
  }

  lemma {:induction false} WithKeyMembers<T>(s: seq<T>, key: T -> (int, int), k: (int, int), e: T)
    ensures e in WithKey(s, key, k) <==> e in s && key(e) == k
  {
    if s != [] {
      WithKeyMembers(s[1..], key, k, e);
      assert s == [s[0]] + s[1..];
    }
  }

  /** An element strictly below every element of `s`: `s` has none with its key. */
  lemma NoneWithKey<T>(x: T, s: seq<T>, key: T -> (int, int))
    requires forall i :: 0 <= i < |s| ==> CompareKeys(key(x), key(s[i])) < 0
    ensures WithKey(s, key, key(x)) == []
  {
    forall i | 0 <= i < |s| ensures key(s[i]) != key(x) {
      CompareKeysOrder(key(x), key(s[i]), key(s[i]));
    }
    if WithKey(s, key, key(x)) != [] {
      WithKeyMembers(s, key, key(x), WithKey(s, key, key(x))[0]);
      assert false;
    }
  }

  lemma {:induction false} InsertStable<T>(x: T, s: seq<T>, key: T -> (int, int), k: (int, int))
    requires SortedBy(s, key)
    ensures WithKey(InsertByKey(x, s, key), key, k) == WithKey(s, key, k) + (if key(x) == k then [x] else [])
  {
    if s == [] {
    } else if CompareKeys(key(x), key(s[0])) < 0 {
      InsertAtFrontStable(x, s, key, k);
    } else {
      InsertStable(x, s[1..], key, k);
      assert InsertByKey(x, s, key) == [s[0]] + InsertByKey(x, s[1..], key);
      WithKeyAppend([s[0]], InsertByKey(x, s[1..], key), key, k);
      WithKeyAppend([s[0]], s[1..], key, k);
      assert s == [s[0]] + s[1..];
    }
  }

  /** An element inserted in front of a sorted sequence whose head has a greater key comes after no element of its key. */
  lemma InsertAtFrontStable<T>(x: T, s: seq<T>, key: T -> (int, int), k: (int, int))
    requires SortedBy(s, key) && s != [] && CompareKeys(key(x), key(s[0])) < 0
    ensures WithKey([x] + s, key, k) == WithKey(s, key, k) + (if key(x) == k then [x] else [])
  {
    forall i | 0 <= i < |s| ensures CompareKeys(key(x), key(s[i])) < 0 {
      CompareKeysOrder(key(x), key(s[0]), key(s[i]));
    }
    NoneWithKey(x, s, key);
    WithKeyAppend([x], s, key, k);
    assert WithKey([x], key, k) == (if key(x) == k then [x] else []) by {
      assert [x][1..] == [];
    }
  }

  lemma {:induction false} SortStable<T>(s: seq<T>, key: T -> (int, int))
    ensures forall k :: WithKey(SortByKey(s, key), key, k) == WithKey(s, key, k)
  {
    if s != [] {
      var init, last := s[..|s| - 1], s[|s| - 1];
      SortStable(init, key);
      SortSorted(init, key);
      forall k ensures WithKey(SortByKey(s, key), key, k) == WithKey(s, key, k) {
        InsertStable(last, SortByKey(init, key), key, k);
        assert s == init + [last];
        WithKeyAppend(init, [last], key, k);
      }
    }
  }

  /** In two sequences that agree on every key, the head of a sorted one is not above the other's head. */
  lemma HeadHasLeastKey<T>(r1: seq<T>, r2: seq<T>, key: T -> (int, int))
    requires r1 != [] && r2 != [] && SortedBy(r2, key)
    requires forall k :: WithKey(r1, key, k) == WithKey(r2, key, k)
    ensures CompareKeys(key(r2[0]), key(r1[0])) <= 0
  {
    var a := r1[0];
    WithKeyMembers(r1, key, key(a), a);
    WithKeyMembers(r2, key, key(a), a);
    var i :| 0 <= i < |r2| && r2[i] == a;
    if i == 0 {
      CompareKeysOrder(key(a), key(a), key(a));
    }
  }

  lemma SameKeysSameEmptiness<T>(r1: seq<T>, r2: seq<T>, key: T -> (int, int))
    requires forall k :: WithKey(r1, key, k) == WithKey(r2, key, k)
    ensures r1 == [] <==> r2 == []
  {
    if r1 != [] {
      assert WithKey(r1, key, key(r1[0])) != [];
    }
    if r2 != [] {
      assert WithKey(r2, key, key(r2[0])) != [];
    }
  }

  /**
   * The sorted, per-key-stable arrangement is unique: two sequences that are both sorted
   * and agree on the elements of every key are equal. So every stable sort with this
   * comparator yields exactly `SortForms("tense", forms)`.
   */
  lemma {:induction false} StableSortIsUnique<T>(r1: seq<T>, r2: seq<T>, key: T -> (int, int))
    requires SortedBy(r1, key) && SortedBy(r2, key)
    requires forall k :: WithKey(r1, key, k) == WithKey(r2, key, k)
    ensures r1 == r2
  {
    SameKeysSameEmptiness(r1, r2, key);
    if r1 != [] {
      var a, b := r1[0], r2[0];
      HeadHasLeastKey(r1, r2, key);
      HeadHasLeastKey(r2, r1, key);
      CompareKeysOrder(key(a), key(b), key(b));
      assert key(a) == key(b);
      assert WithKey(r1, key, key(a))[0] == a;
      assert WithKey(r2, key, key(a))[0] == b;
      forall k ensures WithKey(r1[1..], key, k) == WithKey(r2[1..], key, k) {
        var head := if key(a) == k then [a] else [];
        assert WithKey(r1, key, k) == head + WithKey(r1[1..], key, k);
        assert WithKey(r2, key, k) == head + WithKey(r2[1..], key, k);
        assert WithKey(r1[1..], key, k) == (head + WithKey(r1[1..], key, k))[|head|..];
        assert WithKey(r2[1..], key, k) == (head + WithKey(r2[1..], key, k))[|head|..];
      }
      StableSortIsUnique(r1[1..], r2[1..], key);
      assert r1 == [a] + r1[1..];
      assert r2 == [b] + r2[1..];
    }
  }

  /** Four tense forms in scrambled order: (plural,2), (singular,1), (singular,3), (plural,1). */
  lemma TenseOrderExample(p2: WordForm, s1: WordForm, s3: WordForm, p1: WordForm)
    requires p2.plurality == "plural" && p2.person == Some("2")
    requires s1.plurality == "singular" && s1.person == Some("1")
    requires s3.plurality == "singular" && s3.person == Some("3")
    requires p1.plurality == "plural" && p1.person == Some("1")
    ensures SortForms("tense", [p2, s1, s3, p1]) == [s1, s3, p1, p2]
  {
    assert Rank(p2) == (1, 1) && Rank(s1) == (0, 0) && Rank(s3) == (0, 2) && Rank(p1) == (1, 0);
    var input := [p2, s1, s3, p1];
    assert input[..3] == [p2, s1, s3] && [p2, s1, s3][..2] == [p2, s1] && [p2, s1][..1] == [p2];
    assert SortByKey([p2], Rank) == [p2] by {
      assert [p2][..0] == [];
    }
    assert SortByKey([p2, s1], Rank) == [s1, p2];
    assert SortByKey([p2, s1, s3], Rank) == [s1, s3, p2] by {
      assert [s1, p2][1..] == [p2];
      assert InsertByKey(s3, [p2], Rank) == [s3, p2];
    }
    assert InsertByKey(p1, [s1, s3, p2], Rank) == [s1, s3, p1, p2] by {
      assert [s1, s3, p2][1..] == [s3, p2];
      assert [s3, p2][1..] == [p2];
      assert InsertByKey(p1, [p2], Rank) == [p1, p2];
      assert InsertByKey(p1, [s3, p2], Rank) == [s3] + [p1, p2];
    }
    assert SortByKey(input, Rank) == InsertByKey(p1, SortByKey(input[..3], Rank), Rank);
  }

  // ── Grouping into sections ─────────────────────────────────────────────────

  /** `form.form_type?.category || 'other'`. */
  function CategoryOf(f: WordForm): (c: string)
    ensures c != ""
    ensures f.formType.Some? && f.formType.value.category != "" ==> c == f.formType.value.category
    ensures f.formType.None? || f.formType.value.category == "" ==> c == "other"
  {
    match f.formType
    case None => "other"
    case Some(t) => if t.category == "" then "other" else t.category
  }

  /** No key occurs twice: the last one is new, and so on back to the first. */
  ghost predicate NoDuplicates<A>(cs: seq<A>) {
    cs == [] || (cs[|cs| - 1] !in cs[..|cs| - 1] && NoDuplicates(cs[..|cs| - 1]))
  }

  lemma {:induction false} NoDuplicatesPairwise<A>(cs: seq<A>, i: nat, j: nat)
    requires NoDuplicates(cs) && i < j < |cs|
    ensures cs[i] != cs[j]
  {
    var init := cs[..|cs| - 1];
    if j < |cs| - 1 {
      NoDuplicatesPairwise(init, i, j);
      assert init[i] == cs[i] && init[j] == cs[j];
    } else {
      assert cs[i] == init[i];
    }
  }

  /**
   * The group keys in the order the grouping object receives them: each category at its
   * first occurrence.
   */
  function Categories(forms: seq<WordForm>): (cs: seq<string>)
    ensures NoDuplicates(cs)
    ensures forall c :: c in cs <==> exists i :: 0 <= i < |forms| && CategoryOf(forms[i]) == c
  {
    if forms == [] then []
    else
      var init := forms[..|forms| - 1];
      var c := CategoryOf(forms[|forms| - 1]);
      var earlier := Categories(init);
      assert forall i :: 0 <= i < |init| ==> init[i] == forms[i];
      if c in earlier then earlier else earlier + [c]
  }

  /** The forms of category `c`, in input order. */
  function Group(forms: seq<WordForm>, c: string): seq<WordForm> {
    if forms == [] then []
    else Group(forms[..|forms| - 1], c) + (if CategoryOf(forms[|forms| - 1]) == c then [forms[|forms| - 1]] else [])
  }

  /** A group holds exactly the forms of its category. */
  lemma {:induction false} GroupMembers(forms: seq<WordForm>, c: string)
    ensures forall f :: f in Group(forms, c) <==> f in forms && CategoryOf(f) == c
  {
    if forms != [] {
      var init, last := forms[..|forms| - 1], forms[|forms| - 1];
      GroupMembers(init, c);
      assert forms == init + [last];
    }
  }

  lemma CategoriesSnoc(forms: seq<WordForm>, x: WordForm)
    ensures Categories(forms + [x]) ==
              if CategoryOf(x) in Categories(forms) then Categories(forms) else Categories(forms) + [CategoryOf(x)]
  {
    assert (forms + [x])[..|forms|] == forms;
  }

  lemma GroupSnoc(forms: seq<WordForm>, x: WordForm)
    ensures forall c :: Group(forms + [x], c) == Group(forms, c) + (if CategoryOf(x) == c then [x] else [])
  {
    assert (forms + [x])[..|forms|] == forms;
  }

  lemma GroupOfAbsentCategory(forms: seq<WordForm>, c: string)
    requires c !in Categories(forms)
    ensures Group(forms, c) == []
  {
    GroupMembers(forms, c);
    assert forall f :: f !in Group(forms, c);
  }

  /** One section of the view: its key, its label and icon, its sorted forms and their split. */
  datatype Section = Section(
    category: string,
    meta: CategoryMeta,
    forms: seq<WordForm>,
    preview: seq<WordForm>,
    rest: seq<WordForm>)

  function Min(a: int, b: int): int {
    if a <= b then a else b
  }

  /** The section of one group: sort, look up the label, split after `PreviewCount` forms. */
  function MakeSection(category: string, groupForms: seq<WordForm>): (s: Section)
    ensures s.category == category && s.meta == MetaFor(category)
    ensures s.forms == SortForms(category, groupForms)
    ensures s.preview + s.rest == s.forms
    ensures |s.preview| == Min(PreviewCount, |s.forms|)
    ensures multiset(s.preview) + multiset(s.rest) == multiset(groupForms)
  {
    var sorted := SortForms(category, groupForms);
    var cut := Min(PreviewCount, |sorted|);
    assert sorted[..cut] + sorted[cut..] == sorted;
    Section(category, MetaFor(category), sorted, sorted[..cut], sorted[cut..])
  }

  /** `xs.map(f)`. */
  function MapSeq<A, B>(xs: seq<A>, f: A -> B): (ys: seq<B>)
    ensures |ys| == |xs|
  {
    if xs == [] then [] else MapSeq(xs[..|xs| - 1], f) + [f(xs[|xs| - 1])]
  }

  lemma {:induction false} MapSeqAt<A, B>(xs: seq<A>, f: A -> B, j: nat)
    requires j < |xs|
    ensures MapSeq(xs, f)[j] == f(xs[j])
  {
    var init := xs[..|xs| - 1];
    if j < |init| {
      MapSeqAt(init, f, j);
      assert init[j] == xs[j];
    }
  }

  lemma MapSeqSnoc<A, B>(xs: seq<A>, f: A -> B, j: nat)
    requires j < |xs|
    ensures MapSeq(xs[..j + 1], f) == MapSeq(xs[..j], f) + [f(xs[j])]
  {
    assert xs[..j + 1][..j] == xs[..j];
  }

  /** The callback of the entries' `map`: the section of one key and its group. */
  function SectionOfKey(forms: seq<WordForm>): string -> Section {
    c => MakeSection(c, Group(forms, c))
  }

  /** The sections for the keys `cs`, in that order. */
  function SectionsFor(cs: seq<string>, forms: seq<WordForm>): (ss: seq<Section>)
    ensures |ss| == |cs|
  {
    MapSeq(cs, SectionOfKey(forms))
  }

  /** The section at position `j` is the one made from the `j`-th key and its group. */
  lemma SectionAt(cs: seq<string>, forms: seq<WordForm>, j: nat)
    requires j < |cs|
    ensures SectionsFor(cs, forms)[j] == MakeSection(cs[j], Group(forms, cs[j]))
  {
    MapSeqAt(cs, SectionOfKey(forms), j);
  }

  /** One more key's section extends the sections of the keys before it. */
  lemma SectionsStep(cs: seq<string>, j: nat, forms: seq<WordForm>, sections: seq<Section>, groupForms: seq<WordForm>)
    requires j < |cs| && sections == SectionsFor(cs[..j], forms) && groupForms == Group(forms, cs[j])
    ensures sections + [MakeSection(cs[j], groupForms)] == SectionsFor(cs[..j + 1], forms)
  {
    MapSeqSnoc(cs, SectionOfKey(forms), j);
  }

  /** What `buildSections` returns: one section per category, in order of first occurrence. */
  function SectionsOf(forms: seq<WordForm>): seq<Section> {
    SectionsFor(Categories(forms), forms)
  }

  /**
   * The reduce of `buildSections`: each form is appended to the list of its category in a
   * keyed object, a list being created at the category's first form. Returns the object
   * and its keys in insertion order.
   */
  method GroupByCategory(forms: seq<WordForm>) returns (grouped: map<string, seq<WordForm>>, keys: seq<string>)
    ensures keys == Categories(forms)
    ensures forall c :: c in grouped <==> c in keys
    ensures forall c :: c in grouped ==> grouped[c] == Group(forms, c)
  {
    grouped, keys := map[], [];
    var i := 0;
    while i < |forms|
      invariant 0 <= i <= |forms|
      invariant keys == Categories(forms[..i])
      invariant forall c :: c in grouped <==> c in keys
      invariant forall c :: c in grouped ==> grouped[c] == Group(forms[..i], c)
    {
      var category := CategoryOf(forms[i]);
      ghost var before := forms[..i];
      assert forms[..i + 1] == before + [forms[i]];
      if category !in grouped {
        assert Group(before, category) == [] by {
          GroupOfAbsentCategory(before, category);
        }
        grouped := grouped[category := []];
        keys := keys + [category];
      }
      grouped := grouped[category := grouped[category] + [forms[i]]];
      assert keys == Categories(forms[..i + 1]) by {
        CategoriesSnoc(before, forms[i]);
      }
      assert forall c :: c in grouped ==> grouped[c] == Group(forms[..i + 1], c) by {
        GroupSnoc(before, forms[i]);
      }
      i := i + 1;
    }
    assert forms[..i] == forms;
  }

  /**
   * `buildSections`: the grouped object's (key, list) entries, in key-insertion order,
   * each made into a section.
   */
  method BuildSections(forms: seq<WordForm>) returns (sections: seq<Section>)
    ensures sections == SectionsOf(forms)
  {
    var grouped, keys := GroupByCategory(forms);
    sections := [];
    var j := 0;
    while j < |keys|
      invariant 0 <= j <= |keys|
      invariant sections == SectionsFor(keys[..j], forms)
    {
      var category := keys[j];
      assert category in keys;
      SectionsStep(keys, j, forms, sections, grouped[category]);
      sections := sections + [MakeSection(category, grouped[category])];
      j := j + 1;
    }
    assert keys[..j] == keys;
  }

  /** The forms of all sections, one after another. */
  function AllForms(ss: seq<Section>): seq<WordForm> {
    if ss == [] then [] else AllForms(ss[..|ss| - 1]) + ss[|ss| - 1].forms
  }

  /** The multiset union of `bag(c)` over the keys `cs`. */
  ghost function BagSum<A>(cs: seq<A>, bag: A -> multiset<WordForm>): multiset<WordForm> {
    if cs == [] then multiset{} else BagSum(cs[..|cs| - 1], bag) + bag(cs[|cs| - 1])
  }

  /**
   * When `g` adds `e` to what `f` gives at key `k` and agrees with it elsewhere, summing
   * over duplicate-free keys adds `e` once if `k` is among them and not at all otherwise.
   */
  lemma {:induction false} BagSumStep<A>(cs: seq<A>, f: A -> multiset<WordForm>, g: A -> multiset<WordForm>, k: A, e: WordForm)
    requires NoDuplicates(cs)
    requires forall c :: g(c) == f(c) + (if c == k then multiset{e} else multiset{})
    ensures BagSum(cs, g) == BagSum(cs, f) + (if k in cs then multiset{e} else multiset{})
  {
    if cs != [] {
      var init, c := cs[..|cs| - 1], cs[|cs| - 1];
      BagSumStep(init, f, g, k, e);
      assert g(c) == f(c) + (if c == k then multiset{e} else multiset{});
      assert k in cs <==> k in init || k == c;
      if k == c {
        assert k !in init;
      }
    }
  }

  /** The bag of each key's group. */
  ghost function GroupBagOf(forms: seq<WordForm>): string -> multiset<WordForm> {
    c => multiset(Group(forms, c))
  }

  /** The multiset union of the groups of the keys `cs`. */
  ghost function GroupsBag(cs: seq<string>, forms: seq<WordForm>): multiset<WordForm> {
    BagSum(cs, GroupBagOf(forms))
  }

  lemma {:induction false} AllFormsBag(cs: seq<string>, forms: seq<WordForm>)
    ensures multiset(AllForms(SectionsFor(cs, forms))) == GroupsBag(cs, forms)
  {
    if cs != [] {
      var init := cs[..|cs| - 1];
      AllFormsBag(init, forms);
      var ss := SectionsFor(cs, forms);
      var last := MakeSection(cs[|cs| - 1], Group(forms, cs[|cs| - 1]));
      assert ss == SectionsFor(init, forms) + [last];
      assert ss[..|ss| - 1] == SectionsFor(init, forms);
      assert multiset(last.forms) == multiset(Group(forms, cs[|cs| - 1]));
    }
  }

  /** Adding a form adds it to exactly the group of its category, if that key is listed once. */
  lemma GroupsBagSnoc(cs: seq<string>, forms: seq<WordForm>, x: WordForm)
    requires NoDuplicates(cs)
    ensures GroupsBag(cs, forms + [x]) == GroupsBag(cs, forms) + (if CategoryOf(x) in cs then multiset{x} else multiset{})
  {
    forall c ensures GroupBagOf(forms + [x])(c) == GroupBagOf(forms)(c) + (if c == CategoryOf(x) then multiset{x} else multiset{}) {
      GroupBagStep(forms, x, c);
    }
    BagSumStep(cs, GroupBagOf(forms), GroupBagOf(forms + [x]), CategoryOf(x), x);
  }

  /** Adding a form adds it to the group of its own category and to no other. */
  lemma GroupBagStep(forms: seq<WordForm>, x: WordForm, c: string)
    ensures multiset(Group(forms + [x], c)) == multiset(Group(forms, c)) + (if CategoryOf(x) == c then multiset{x} else multiset{})
  {
    assert (forms + [x])[..|forms|] == forms;
  }

  /** Groups over a duplicate-free list of keys that covers every category hold each form once. */
  lemma {:induction false} GroupsBagCovers(cs: seq<string>, forms: seq<WordForm>)
    requires NoDuplicates(cs)
    requires forall i :: 0 <= i < |forms| ==> CategoryOf(forms[i]) in cs
    ensures GroupsBag(cs, forms) == multiset(forms)
  {
    if forms == [] {
      EmptyGroupsBag(cs);
    } else {
      var init, last := forms[..|forms| - 1], forms[|forms| - 1];
      assert forall i :: 0 <= i < |init| ==> init[i] == forms[i];
      GroupsBagCovers(cs, init);
      assert CategoryOf(last) in cs;
      GroupsBagSnoc(cs, init, last);
      assert init + [last] == forms;
      assert multiset(forms) == multiset(init) + multiset{last};
    }
  }

  lemma {:induction false} EmptyGroupsBag(cs: seq<string>)
    ensures GroupsBag(cs, []) == multiset{}
  {
    if cs != [] {
      EmptyGroupsBag(cs[..|cs| - 1]);
    }
  }

  /**
   * The sections partition the input: their forms, one after another, are a permutation
   * of the forms given, and no two sections share a category.
   */
  lemma SectionsPartitionForms(forms: seq<WordForm>)
    ensures multiset(AllForms(SectionsOf(forms))) == multiset(forms)
    ensures forall i, j :: 0 <= i < j < |SectionsOf(forms)| ==> SectionsOf(forms)[i].category != SectionsOf(forms)[j].category
  {
    var cs := Categories(forms);
    AllFormsBag(cs, forms);
    GroupsBagCovers(cs, forms);
    forall i, j | 0 <= i < j < |cs| ensures SectionsFor(cs, forms)[i].category != SectionsFor(cs, forms)[j].category {
      SectionAt(cs, forms, i);
      SectionAt(cs, forms, j);
      NoDuplicatesPairwise(cs, i, j);
    }
  }

  /** A form without a category, or with an empty one, is shown in the section keyed "other". */
  lemma UncategorisedFormGoesToOther(forms: seq<WordForm>, f: WordForm)
    requires f in forms && (f.formType.None? || f.formType.value.category == "")
    ensures exists j :: 0 <= j < |SectionsOf(forms)| && SectionsOf(forms)[j].category == "other"
                        && f in SectionsOf(forms)[j].forms
  {
    FormInExactlyItsSection(forms, f);
    var j :| 0 <= j < |SectionsOf(forms)| && SectionsOf(forms)[j].category == CategoryOf(f);
    assert f in SectionsOf(forms)[j].forms;
  }

  /**
   * Every form lies in the section of its own category and in no other, and every form's
   * category has a section.
   */
  lemma FormInExactlyItsSection(forms: seq<WordForm>, f: WordForm)
    requires f in forms
    ensures exists j :: 0 <= j < |SectionsOf(forms)| && SectionsOf(forms)[j].category == CategoryOf(f)
    ensures forall j :: 0 <= j < |SectionsOf(forms)| ==>
              (f in SectionsOf(forms)[j].forms <==> SectionsOf(forms)[j].category == CategoryOf(f))
  {
    var cs := Categories(forms);
    var ss := SectionsOf(forms);
    var i :| 0 <= i < |forms| && forms[i] == f;
    assert CategoryOf(forms[i]) in cs;
    var j0 :| 0 <= j0 < |cs| && cs[j0] == CategoryOf(f);
    SectionAt(cs, forms, j0);
    assert ss[j0].category == CategoryOf(f);
    forall j | 0 <= j < |ss| ensures f in ss[j].forms <==> ss[j].category == CategoryOf(f) {
      SectionMembers(cs, forms, j, f);
      GroupMembers(forms, cs[j]);
    }
  }

  /** A section holds exactly the forms of its key's group. */
  lemma SectionMembers(cs: seq<string>, forms: seq<WordForm>, j: nat, f: WordForm)
    requires j < |cs|
    ensures SectionsFor(cs, forms)[j].category == cs[j]
    ensures f in SectionsFor(cs, forms)[j].forms <==> f in Group(forms, cs[j])
  {
    var s := SectionsFor(cs, forms)[j];
    SectionAt(cs, forms, j);
    assert multiset(s.forms) == multiset(Group(forms, cs[j]));
    assert f in s.forms <==> f in multiset(s.forms);
    assert f in Group(forms, cs[j]) <==> f in multiset(Group(forms, cs[j]));
  }

  /**
   * Each section keeps its category key and the label of that key (or "Other"); a group
   * other than `tense` holds its forms in input order, and the preview is the first
   * min(3, n) forms with the remainder after it.
   */
  lemma SectionShape(forms: seq<WordForm>, j: nat)
    requires j < |SectionsOf(forms)|
    ensures var s := SectionsOf(forms)[j];
      && s.meta == MetaFor(s.category)
      && (s.category != "tense" ==> s.forms == Group(forms, s.category))
      && s.preview == s.forms[..Min(PreviewCount, |s.forms|)]
      && s.rest == s.forms[Min(PreviewCount, |s.forms|)..]
      && |s.forms| == |Group(forms, s.category)|
  {
    var s := SectionsOf(forms)[j];
    SectionAt(Categories(forms), forms, j);
    assert s.preview == (s.preview + s.rest)[..|s.preview|];
    assert s.rest == (s.preview + s.rest)[|s.preview|..];
    assert |multiset(s.forms)| == |multiset(Group(forms, s.category))|;
  }

  /** A `voice` group is labelled "Other" but keeps `voice` as its key. */
  lemma VoiceSectionIsLabelledOther(forms: seq<WordForm>, j: nat)
    requires j < |SectionsOf(forms)| && SectionsOf(forms)[j].category == Voice.Name()
    ensures SectionsOf(forms)[j].meta.caption == "Other"
    ensures SectionsOf(forms)[j].category == "voice"
  {
    SectionAt(Categories(forms), forms, j);
    MetaOfSchemaCategory(Voice);
  }

  // ── Expansion of a section ─────────────────────────────────────────────────

  /** `rest.length > 0`: whether `WordFormSections` passes expanded content (hence a toggle). */
  function OffersToggle(s: Section): bool {
    |s.rest| > 0
  }

  /** A built section offers a toggle exactly when it holds more forms than the preview shows. */
  lemma ToggleIffMoreThanPreview(category: string, groupForms: seq<WordForm>)
    ensures OffersToggle(MakeSection(category, groupForms)) <==> |groupForms| > PreviewCount
  {
    var s := MakeSection(category, groupForms);
    assert |s.forms| == |groupForms| by {
      assert |multiset(s.forms)| == |multiset(groupForms)|;
    }
    assert |s.preview| + |s.rest| == |s.forms|;
  }

  /** The collapsible box `WordFormSections` renders for one section, collapsed at first. */
  method MountSection(s: Section) returns (box: Expandable.ExpandableSection)
    ensures fresh(box)
    ensures box.title == s.meta.caption && box.count == |s.forms|
    ensures box.hasMore == OffersToggle(s) && !box.isExpanded
  {
    box := new Expandable.ExpandableSection(s.meta.caption, |s.forms|, OffersToggle(s), None, None, None);
  }

  // ── Row description ────────────────────────────────────────────────────────

  /** `${PERSON_ORDINALS[person] ?? person} Person`. */
  function PersonLabel(person: string): (shown: string)
    ensures |shown| >= 7 && shown[|shown| - 7..] == " Person"
    ensures person in PersonOrdinals ==> shown[..|shown| - 7] == PersonOrdinals[person]
    ensures person !in PersonOrdinals ==> shown[..|shown| - 7] == person
  {
    (if person in PersonOrdinals then PersonOrdinals[person] else person) + " Person"
  }

  /** The schema's three persons read as ordinals. */
  lemma SchemaPersonLabels()
    ensures PersonLabel(First.Name()) == "1st Person"
    ensures PersonLabel(Second.Name()) == "2nd Person"
    ensures PersonLabel(Third.Name()) == "3rd Person"
  {
  }

  /** The parts of a row description that are present, in their fixed order. */
  function DescriptionParts(f: WordForm): (parts: seq<string>)
    ensures forall i :: 0 <= i < |parts| ==> parts[i] != ""
  {
    (if Truthy(f.person) then [PersonLabel(f.person.value)] else [])
    + (if Truthy(f.gender) then [f.gender.value] else [])
    + (if f.plurality != "" then [f.plurality] else [])
    + (if Truthy(f.tense) then [f.tense.value] else [])
  }

  /**
   * `formatFormDescription`: pushes the person label, gender, plurality and tense that are
   * present onto a list and joins it with single spaces; empty when none is present.
   */
  method FormatFormDescription(f: WordForm) returns (description: string)
    ensures description == Join(DescriptionParts(f), " ")
    ensures description == "" <==> !Truthy(f.person) && !Truthy(f.gender) && f.plurality == "" && !Truthy(f.tense)
  {
    var parts: seq<string> := [];
    if Truthy(f.person) {
      parts := parts + [PersonLabel(f.person.value)];
    }
    if Truthy(f.gender) {
      parts := parts + [f.gender.value];
    }
    if f.plurality != "" {
      parts := parts + [f.plurality];
    }
    if Truthy(f.tense) {
      parts := parts + [f.tense.value];
    }
    assert parts == DescriptionParts(f);
    JoinIsEmpty(parts, " ");
    description := Join(parts, " ");
  }

  /** A first-person singular present form reads "1st Person singular present". */
  lemma DescriptionExample(f: WordForm)
    requires f.person == Some("1") && f.gender == None && f.plurality == "singular" && f.tense == Some("present")
    ensures Join(DescriptionParts(f), " ") == "1st Person singular present"
  {
    var parts := ["1st Person", "singular", "present"];
    assert DescriptionParts(f) == parts by {
      assert PersonOrdinals["1"] == "1st";
      assert "1st" + " Person" == "1st Person";
    }
    JoinThree("1st Person", "singular", "present", " ");
    assert "1st Person" + " " + ("singular" + " " + "present") == "1st Person singular present" by {
      SpelledDescription();
    }
  }

  lemma JoinThree(a: string, b: string, c: string, sep: string)
    ensures Join([a, b, c], sep) == a + sep + (b + sep + c)
  {
    assert Join([c], sep) == c;
    assert Join([b, c], sep) == b + sep + c by {
      assert [b, c][1..] == [c];
    }
    assert [a, b, c][1..] == [b, c];
  }

  lemma SpelledDescription()
    ensures "1st Person" + " " + ("singular" + " " + "present") == "1st Person singular present"
  {
  }

  // ── Examples by form id ────────────────────────────────────────────────────

  datatype ExampleEntry = ExampleEntry(czech: string, english: string)

  function EntryOf(e: ExampleSentence): ExampleEntry {
    ExampleEntry(e.czechSentence, e.englishSentence)
  }

  /**
   * `buildExamplesMap`: a map built from (word_form_id, entry) pairs in list order, so a
   * later example with the same form id replaces an earlier one.
   */
  function BuildExamplesMap(examples: seq<ExampleSentence>): (m: map<int, ExampleEntry>)
    ensures forall id :: id in m <==> exists i :: 0 <= i < |examples| && examples[i].wordFormId == id
  {
    if examples == [] then map[]
    else
      var init, last := examples[..|examples| - 1], examples[|examples| - 1];
      assert forall i :: 0 <= i < |init| ==> init[i] == examples[i];
      BuildExamplesMap(init)[last.wordFormId := EntryOf(last)]
  }

  /** `examplesByFormId.get(id)`. */
  function LookupExample(m: map<int, ExampleEntry>, id: int): Option<ExampleEntry> {
    if id in m then Some(m[id]) else None
  }

  /**
   * Looking up a form id yields the entry of the LAST example with that id, and nothing
   * when no example has it.
   */
  lemma {:induction false} ExampleLookupLastWins(examples: seq<ExampleSentence>, id: int)
    ensures LookupExample(BuildExamplesMap(examples), id) == None <==>
              forall i :: 0 <= i < |examples| ==> examples[i].wordFormId != id
    ensures forall i :: (0 <= i < |examples| && examples[i].wordFormId == id &&
                         (forall j :: i < j < |examples| ==> examples[j].wordFormId != id))
                        ==> LookupExample(BuildExamplesMap(examples), id) == Some(EntryOf(examples[i]))
  {
    if examples != [] {
      var init, last := examples[..|examples| - 1], examples[|examples| - 1];
      ExampleLookupLastWins(init, id);
      forall i | 0 <= i < |examples| && examples[i].wordFormId == id &&
                 (forall j :: i < j < |examples| ==> examples[j].wordFormId != id)
        ensures LookupExample(BuildExamplesMap(examples), id) == Some(EntryOf(examples[i]))
      {
        if i < |examples| - 1 {
          assert init[i] == examples[i];
          assert forall j :: i < j < |init| ==> init[j] == examples[j];
        }
      }
    }
  }

  /** The example attached to a form row: the form's id looked up among the examples. */
  function ExampleFor(f: WordForm, examples: seq<ExampleSentence>): (r: Option<ExampleEntry>)
    ensures r.None? <==> forall i :: 0 <= i < |examples| ==> examples[i].wordFormId != f.id
    ensures r.Some? ==> exists i :: 0 <= i < |examples| && examples[i].wordFormId == f.id && EntryOf(examples[i]) == r.value
                                      && forall j :: i < j < |examples| ==> examples[j].wordFormId != f.id
  {
    ExampleLookupLastWins(examples, f.id);
    var r := LookupExample(BuildExamplesMap(examples), f.id);
    if r.Some? then
      LastMatchExists(examples, f.id);
      r
    else r
  }

  /** If some example carries `id`, a last one does. */
  lemma LastMatchExists(examples: seq<ExampleSentence>, id: int)
    requires exists i :: 0 <= i < |examples| && examples[i].wordFormId == id
    ensures exists i :: 0 <= i < |examples| && examples[i].wordFormId == id &&
              (forall j :: i < j < |examples| ==> examples[j].wordFormId != id)
  {
    var n := |examples|;
    if examples[n - 1].wordFormId != id {
      var init := examples[..n - 1];
      var i :| 0 <= i < n && examples[i].wordFormId == id;
      assert init[i] == examples[i];
      LastMatchExists(init, id);
      var k :| 0 <= k < |init| && init[k].wordFormId == id &&
               (forall j :: k < j < |init| ==> init[j].wordFormId != id);
      assert forall j :: k < j < n ==> examples[j].wordFormId != id by {
        forall j | k < j < n ensures examples[j].wordFormId != id {
          if j < n - 1 { assert init[j] == examples[j]; }
        }
      }
    }
  }

  // ── The view as a whole ────────────────────────────────────────────────────

  datatype WordDetails = WordDetails(rootWord: RootWord, forms: seq<WordForm>, examples: seq<ExampleSentence>)

  /** The state of the details request the component reads. */
  datatype DetailQuery = DetailQuery(isLoading: bool, failed: bool, data: Option<WordDetails>)

  datatype DetailView =
    | LoadingPlaceholder
    | LoadFailedMessage
    | Ready(rootWord: RootWord, sections: seq<Section>, examplesByFormId: map<int, ExampleEntry>)

  /**
   * `WordDetail`: a placeholder while loading; the failure message on an error or missing
   * data; otherwise the sections and the examples map of the fetched details.
   */
  function ViewOf(q: DetailQuery): (v: DetailView)
    ensures v.LoadingPlaceholder? <==> q.isLoading
    ensures v.LoadFailedMessage? <==> !q.isLoading && (q.failed || q.data.None?)
    ensures v.Ready? ==> (q.data.Some? && v.rootWord == q.data.value.rootWord
                          && v.sections == SectionsOf(q.data.value.forms)
                          && v.examplesByFormId == BuildExamplesMap(q.data.value.examples))
  {
    if q.isLoading then LoadingPlaceholder
    else if q.failed || q.data.None? then LoadFailedMessage
    else Ready(q.data.value.rootWord, SectionsOf(q.data.value.forms), BuildExamplesMap(q.data.value.examples))
  }
}
