/** `spec.list_tags`: the tags of the public specs, most used first, ties in the order of the database. */
module TagList {
  import opened Prelude
  import opened Sorting
  import opened Filters
  import opened Cursor
  import opened Keyset
  import opened Grouping
  import opened Catalog

  type TagCount = Group<string, nat>

  /** `FROM … CROSS JOIN LATERAL unnest(tags)`. */
  function AllTags(specs: seq<Spec>): seq<string> {
    if specs == [] then [] else AllTags(specs[..|specs| - 1]) + specs[|specs| - 1].tags
  }

  function Plus(a: nat, b: nat): nat {
    a + b
  }

  /** `SELECT tag, COUNT(*) … GROUP BY tag`. */
  function Counts(tags: seq<string>): seq<TagCount> {
    if tags == [] then [] else Put(Counts(tags[..|tags| - 1]), tags[|tags| - 1], 1, Plus)
  }

  predicate MoreUsed(a: TagCount, b: TagCount) {
    a.value > b.value
  }

  /** `ORDER BY cnt DESC, tag ASC`; `collate` is the text order of the database. */
  function TagOrder(collate: TextOrder): (TagCount, TagCount) -> bool {
    Then(MoreUsed, (a: TagCount, b: TagCount) => collate(a.key, b.key))
  }

  function TagKeyOf(g: TagCount): TagKey {
    TagKey(g.value, g.key)
  }

  /** `cnt < cur_cnt OR (cnt = cur_cnt AND tag > cur_tag)`. */
  predicate PastTag(collate: TextOrder, k: TagKey, g: TagCount) {
    g.value < k.count || (g.value == k.count && collate(k.tag, g.key))
  }

  function TagListing(collate: TextOrder): Listing<TagCount, TagKey> {
    Listing(TagOrder(collate), TagKeyOf, (k: TagKey, g: TagCount) => PastTag(collate, k, g),
            (k: TagKey) => EncodeTagsCursor(k.count, k.tag), DecodeTagsCursor)
  }

  /** Named parameters: without a cursor the condition is `NOT has_cursor`. */
  function RunTagsQuery(collate: TextOrder, k: Option<TagKey>, specs: seq<Spec>, n: nat): seq<TagCount> {
    Select((g: TagCount) => !k.Some? || PastTag(collate, k.value, g), TagOrder(collate),
      Counts(AllTags(Filter(PublicView, specs))), n)
  }

  function TagAnswer(collate: TextOrder, k: Option<TagKey>, specs: seq<Spec>, n: nat): Page<TagCount> {
    PageOf(TagListing(collate), RunTagsQuery(collate, k, specs, n + 1), n)
  }

  function TagList(
      collate: TextOrder, limit: Option<int>, cursor: Option<string>,
      specs: seq<Spec>): Result<Page<TagCount>, ListError>
  {
    Respond(limit, DecodeTagsCursor(cursor), (k, n) => TagAnswer(collate, k, specs, n))
  }

  function TagEndpoint(collate: TextOrder, specs: seq<Spec>): Endpoint<TagCount> {
    (limit, cursor) => TagList(collate, limit, cursor, specs)
  }

  // ---- Counting ----

  lemma {:induction false} CountsOneEach(tags: seq<string>)
    ensures OneEach(Counts(tags))
  {
    if tags != [] {
      CountsOneEach(tags[..|tags| - 1]);
      PutOneEach(Counts(tags[..|tags| - 1]), tags[|tags| - 1], 1, Plus);
    }
  }

  function Uses(tags: seq<string>, tag: string): Option<nat> {
    if tag in tags then Some(multiset(tags)[tag]) else None
  }

  lemma {:induction false} CountsAreUses(tags: seq<string>, tag: string)
    ensures Under(Counts(tags), tag) == Uses(tags, tag)
  {
    if tags != [] {
      var init, last := tags[..|tags| - 1], tags[|tags| - 1];
      assert tags == init + [last];
      CountsAreUses(init, tag);
      UnderPut(Counts(init), last, 1, Plus, tag);
    }
  }

  /** One entry per tag in use, with the number of its uses. */
  lemma CountsExact(tags: seq<string>, g: TagCount)
    ensures OneEach(Counts(tags))
    ensures g in Counts(tags) <==> g.value > 0 && multiset(tags)[g.key] == g.value
  {
    CountsOneEach(tags);
    CountsAreUses(tags, g.key);
    UnderExact(Counts(tags), g);
  }

  // ---- The listing ----

  lemma TagOrderAt(collate: TextOrder, a: TagCount, b: TagCount)
    requires TotalOrder(collate)
    ensures PastTag(collate, TagKeyOf(a), b) <==> TagOrder(collate)(a, b)
    ensures a != b ==> TagOrder(collate)(a, b) || TagOrder(collate)(b, a)
  {
    assert TagOrder(collate)(a, b) == (MoreUsed(a, b) || (!MoreUsed(b, a) && collate(a.key, b.key)));
    assert TagOrder(collate)(b, a) == (MoreUsed(b, a) || (!MoreUsed(a, b) && collate(b.key, a.key)));
  }

  lemma TagOrderIsOrder(collate: TextOrder)
    requires TotalOrder(collate)
    ensures WeakOrder(TagOrder(collate))
  {
    var byTag := (a: TagCount, b: TagCount) => collate(a.key, b.key);
    assert WeakOrder(byTag) by {
      forall a: TagCount, b: TagCount, c: TagCount
        ensures !byTag(a, a) && (byTag(a, b) && byTag(b, c) ==> byTag(a, c))
        ensures !byTag(a, b) && !byTag(b, c) ==> !byTag(a, c)
      {
        assert collate(a.key, b.key) && collate(b.key, c.key) ==> collate(a.key, c.key);
        assert !collate(a.key, b.key) && !collate(b.key, c.key) ==> !collate(a.key, c.key);
      }
    }
    ThenIsOrder(MoreUsed, byTag);
  }

  function PublicTags(specs: seq<Spec>): seq<string> {
    AllTags(Listed(None, None, None, specs))
  }

  lemma TagsAreSound(collate: TextOrder, tags: seq<string>)
    requires TotalOrder(collate)
    ensures Sound(TagListing(collate), Counts(tags))
  {
    var l, rows := TagListing(collate), Counts(tags);
    TagOrderIsOrder(collate);
    CountsExact(tags, Group("", 0));
    forall a, b | a in rows && b in rows
      ensures a != b ==> l.before(a, b) || l.before(b, a)
      ensures l.after(l.key(a), b) <==> l.before(a, b)
    {
      TagOrderAt(collate, a, b);
    }
    forall r | r in rows
      ensures l.dec(Some(l.enc(l.key(r)))) == Ok(Some(l.key(r)))
    {
      TagsCursorRoundTrip(r.value, r.key);
    }
  }

  lemma PublicRows(specs: seq<Spec>)
    ensures AllTags(Filter(PublicView, specs)) == PublicTags(specs)
  {
    forall s: Spec ensures PublicView(s) <==> MayList(None, None, None, s) {
      LiveLabelKeeps(s, Public);
    }
    FilterAgree(PublicView, (s: Spec) => MayList(None, None, None, s), specs);
  }

  lemma TagPage(collate: TextOrder, specs: seq<Spec>, k: Option<TagKey>, n: nat)
    ensures
      TagAnswer(collate, k, specs, n) == PageBeyond(TagListing(collate), Counts(PublicTags(specs)), k, n)
  {
    PublicRows(specs);
    SelectAgrees(
      (g: TagCount) => !k.Some? || PastTag(collate, k.value, g), g => Beyond(TagListing(collate), k, g),
      TagOrder(collate), Counts(PublicTags(specs)), n + 1);
  }

  /** Every answer of `spec.list_tags` is the page of exactly the tags of the public specs. */
  lemma TagListServes(collate: TextOrder, specs: seq<Spec>)
    ensures Serves(TagEndpoint(collate, specs), TagListing(collate), Counts(PublicTags(specs)))
  {
    forall limit, cursor
      ensures
        TagList(collate, limit, cursor, specs) == Fetch(TagListing(collate), Counts(PublicTags(specs)), limit, cursor)
    {
      var a := (k, n) => TagAnswer(collate, k, specs, n);
      var b := (k, n) => PageBeyond(TagListing(collate), Counts(PublicTags(specs)), k, n);
      forall k: Option<TagKey>, n: nat ensures a(k, n) == b(k, n) {
        TagPage(collate, specs, k, n);
      }
    }
  }

  /**
   * Following `next_cursor` to the end yields each tag of the public specs once, with its number of
   * uses, counts falling and ties in text order. No law of the cursor is assumed.
   */
  lemma TagTraversal(collate: TextOrder, specs: seq<Spec>, limits: seq<Option<int>>, pages: seq<Page<TagCount>>)
    requires TotalOrder(collate) && Follows(TagEndpoint(collate, specs), None, limits, pages)
    ensures Sorted(TagOrder(collate), Items(pages)) && Distinct(Items(pages))
    ensures forall g :: g in Items(pages) <==> g.value > 0 && multiset(PublicTags(specs))[g.key] == g.value
    ensures forall n :: AllOf(limits, n) ==> JustEnough(|pages|, |Items(pages)|, n)
    ensures forall i, j :: 0 <= i < j < |Items(pages)| ==> !ComesBefore(collate, Items(pages)[j], Items(pages)[i])
  {
    var ask, l, rows := TagEndpoint(collate, specs), TagListing(collate), Counts(PublicTags(specs));
    TagListServes(collate, specs);
    TagsAreSound(collate, PublicTags(specs));
    TraversalIsComplete(ask, l, rows, limits, pages);
    assert |multiset(Items(pages))| == |multiset(rows)|;
    forall n | AllOf(limits, n) ensures JustEnough(|pages|, |Items(pages)|, n) {
      TraversalLength(ask, l, rows, limits, pages, n);
    }
    forall g: TagCount ensures g in Items(pages) <==> g.value > 0 && multiset(PublicTags(specs))[g.key] == g.value {
      assert g in multiset(Items(pages)) <==> g in multiset(rows);
      CountsExact(PublicTags(specs), g);
    }
    var items := Items(pages);
    forall i, j | 0 <= i < j < |items| ensures !ComesBefore(collate, items[j], items[i]) {
      OrderedByCount(collate, items[j], items[i]);
    }
  }

  /** The tag with more uses comes first, and of two with as many the one that is lower as text. */
  predicate ComesBefore(collate: TextOrder, a: TagCount, b: TagCount) {
    a.value > b.value || (a.value == b.value && collate(a.key, b.key))
  }

  lemma OrderedByCount(collate: TextOrder, a: TagCount, b: TagCount)
    ensures ComesBefore(collate, a, b) ==> TagOrder(collate)(a, b)
  {
    assert TagOrder(collate)(a, b) == (MoreUsed(a, b) || (!MoreUsed(b, a) && collate(a.key, b.key)));
  }

  /** A tag is used as often as the rows list it, all together. */
  lemma {:induction false} AllTagsExact(a: seq<Spec>, b: seq<Spec>, s: Spec)
    ensures AllTags([]) == [] && AllTags([s]) == s.tags && AllTags(a + b) == AllTags(a) + AllTags(b)
  {
    assert [s][..0] == [];
    if b == [] {
      assert a + b == a;
    } else {
      var init, last := b[..|b| - 1], b[|b| - 1];
      assert (a + b)[..|a + b| - 1] == a + init;
      AllTagsExact(a, init, s);
      Regroup(AllTags(a), AllTags(init), last.tags);
    }
  }
}
