/**
 * The admin post editor's form rules: the title handler that regenerates the slug, the
 * tag selection toggle, the SEO score and the record written on save.
 */
module PostEditor {
  import opened Wrappers
  import Seqs
  import Slug

  datatype Language = Vi | En

  /**
   * The editor's `formData`. Optional text fields are "" when absent, as the editor
   * initialises and loads them.
   */
  datatype PostForm = PostForm(
    id: Option<string>,
    title: string,
    titleEn: string,
    slug: string,
    content: string,
    contentEn: string,
    excerpt: string,
    excerptEn: string,
    published: bool,
    featuredImage: string,
    metaTitle: string,
    metaDescription: string,
    canonicalUrl: string,
    ogImage: string,
    focusKeywords: string)

  /** The record `handleSave` sends to the `posts` table. */
  datatype PostRecord = PostRecord(
    title: string,
    titleEn: string,
    slug: string,
    content: string,
    contentEn: string,
    excerpt: string,
    excerptEn: string,
    published: bool,
    featuredImage: string,
    metaTitle: string,
    metaDescription: string,
    canonicalUrl: string,
    ogImage: string,
    focusKeywords: string)

  /**
   * `handleTitleChange`: a Vietnamese title also sets the slug generated from it; an
   * English title is stored alone. No other field changes.
   */
  function HandleTitleChange(form: PostForm, value: string, lang: Language): (r: PostForm)
    ensures lang == Vi ==> r.title == value && Slug.IsSlug(r.slug) && r.slug == Slug.GenerateSlug(value)
    ensures lang == Vi ==> r.(title := form.title, slug := form.slug) == form
    ensures lang == En ==> r.titleEn == value && r.(titleEn := form.titleEn) == form
  {
    Slug.GenerateSlugIsSlug(value);
    match lang
    case Vi => form.(title := value, slug := Slug.GenerateSlug(value))
    case En => form.(titleEn := value)
  }

  /** Editing the English title never touches the slug or the Vietnamese title. */
  lemma EnglishTitleKeepsSlug(form: PostForm, value: string)
    ensures HandleTitleChange(form, value, En).slug == form.slug
    ensures HandleTitleChange(form, value, En).title == form.title
  {
  }

  /**
   * The record written by `handleSave(publish)`: every field of the form, except that
   * publishing always stores `published = true`.
   */
  function SaveRecord(form: PostForm, publish: bool): (r: PostRecord)
    ensures publish ==> r.published
    ensures !publish ==> r.published == form.published
    ensures r.title == form.title && r.titleEn == form.titleEn && r.slug == form.slug
    ensures r.content == form.content && r.contentEn == form.contentEn
    ensures r.excerpt == form.excerpt && r.excerptEn == form.excerptEn
    ensures r.featuredImage == form.featuredImage && r.ogImage == form.ogImage
    ensures r.metaTitle == form.metaTitle && r.metaDescription == form.metaDescription
    ensures r.canonicalUrl == form.canonicalUrl && r.focusKeywords == form.focusKeywords
  {
    PostRecord(
      form.title, form.titleEn, form.slug, form.content, form.contentEn,
      form.excerpt, form.excerptEn,
      if publish then true else form.published,
      form.featuredImage, form.metaTitle, form.metaDescription,
      form.canonicalUrl, form.ogImage, form.focusKeywords)
  }

  /** Saving never unpublishes: a published form stays published whichever button is used. */
  lemma SaveNeverUnpublishes(form: PostForm, publish: bool)
    requires form.published
    ensures SaveRecord(form, publish).published
  {
  }

  /**
   * `toggleTag`: a selected id is removed (every occurrence), an unselected one is appended
   * at the end.
   */
  function ToggleTag(selected: seq<string>, tagId: string): (r: seq<string>)
    ensures tagId in selected ==> tagId !in r && Seqs.IsSubsequence(r, selected)
    ensures tagId in selected ==> forall x :: x != tagId ==> (x in r <==> x in selected)
    ensures tagId !in selected ==> r == selected + [tagId]
  {
    if tagId in selected then Seqs.Filter(selected, id => id != tagId) else selected + [tagId]
  }

  /** Removing an id that is absent changes nothing. */
  lemma {:induction false} FilterWithoutAbsent(s: seq<string>, tagId: string)
    requires tagId !in s
    ensures Seqs.Filter(s, id => id != tagId) == s
  {
    if s != [] {
      FilterWithoutAbsent(s[1..], tagId);
    }
  }

  /**
   * Toggling a tag twice restores which tags are selected; when the tag was not selected,
   * it restores the exact list.
   */
  lemma ToggleTagTwice(selected: seq<string>, tagId: string)
    ensures forall x :: x in ToggleTag(ToggleTag(selected, tagId), tagId) <==> x in selected
    ensures tagId !in selected ==> ToggleTag(ToggleTag(selected, tagId), tagId) == selected
  {
    var once := ToggleTag(selected, tagId);
    if tagId !in selected {
      assert tagId in once;
      assert once == selected + [tagId];
      FilterAppendDropped(selected, tagId);
      FilterWithoutAbsent(selected, tagId);
    }
  }

  lemma {:induction false} FilterAppendDropped(s: seq<string>, tagId: string)
    ensures Seqs.Filter(s + [tagId], id => id != tagId) == Seqs.Filter(s, id => id != tagId)
  {
    if s == [] {
      assert [] + [tagId] == [tagId];
    } else {
      assert (s + [tagId])[1..] == s[1..] + [tagId];
      FilterAppendDropped(s[1..], tagId);
    }
  }

  /** The four SEO criteria, worth 25 points each. */
  datatype SeoCriterion = MetaTitle | MetaDescription | FocusKeywords | Image

  const AllCriteria: seq<SeoCriterion> := [MetaTitle, MetaDescription, FocusKeywords, Image]

  /** A criterion is met when its field is non-empty; either image field meets the image criterion. */
  predicate Satisfied(form: PostForm, c: SeoCriterion) {
    match c
    case MetaTitle => form.metaTitle != ""
    case MetaDescription => form.metaDescription != ""
    case FocusKeywords => form.focusKeywords != ""
    case Image => form.ogImage != "" || form.featuredImage != ""
  }

  /** The criteria `form` meets. */
  function MetCriteria(form: PostForm): seq<SeoCriterion> {
    Seqs.Filter(AllCriteria, c => Satisfied(form, c))
  }

  /**
   * `seoScore`: 25 points per criterion met, so 0, 25, 50, 75 or 100. By MetCriteriaRange,
   * it is 100 exactly when all four are met and 0 exactly when none is.
   */
  method SeoScore(form: PostForm) returns (score: int)
    ensures score == 25 * |MetCriteria(form)|
    ensures score in {0, 25, 50, 75, 100}
  {
    var a, b, c, d := Satisfied(form, MetaTitle), Satisfied(form, MetaDescription),
      Satisfied(form, FocusKeywords), Satisfied(form, Image);
    score := 0;
    if form.metaTitle != "" { score := score + 25; }
    assert score == 25 * Point(a);
    if form.metaDescription != "" { score := score + 25; }
    assert score == 25 * (Point(a) + Point(b));
    if form.focusKeywords != "" { score := score + 25; }
    assert score == 25 * (Point(a) + Point(b) + Point(c));
    if form.ogImage != "" || form.featuredImage != "" { score := score + 25; }
    MetCriteriaCount(form);
  }

  /** At most the four criteria are met; all four exactly when each is, none exactly when none is. */
  lemma MetCriteriaRange(form: PostForm)
    ensures |MetCriteria(form)| <= 4
    ensures |MetCriteria(form)| == 4 <==> forall c :: Satisfied(form, c)
    ensures |MetCriteria(form)| == 0 <==> forall c :: !Satisfied(form, c)
  {
    MetCriteriaCount(form);
    EveryCriterion(form);
  }

  /** Every criterion is one of the four. */
  lemma EveryCriterion(form: PostForm)
    ensures (forall c :: Satisfied(form, c)) <==>
      Satisfied(form, MetaTitle) && Satisfied(form, MetaDescription) && Satisfied(form, FocusKeywords) && Satisfied(form, Image)
    ensures (forall c :: !Satisfied(form, c)) <==>
      !Satisfied(form, MetaTitle) && !Satisfied(form, MetaDescription) && !Satisfied(form, FocusKeywords) && !Satisfied(form, Image)
  {
  }

  /** One point for a condition that holds. */
  function Point(b: bool): nat {
    if b then 1 else 0
  }

  /** The number of criteria met, criterion by criterion. */
  lemma MetCriteriaCount(form: PostForm)
    ensures |MetCriteria(form)| == Point(Satisfied(form, MetaTitle)) + Point(Satisfied(form, MetaDescription))
      + Point(Satisfied(form, FocusKeywords)) + Point(Satisfied(form, Image))
  {
    var p := c => Satisfied(form, c);
    assert AllCriteria[1..] == [MetaDescription, FocusKeywords, Image];
    assert AllCriteria[2..] == [FocusKeywords, Image];
    assert AllCriteria[3..] == [Image];
    assert AllCriteria[4..] == [];
    var f3 := Seqs.Filter([Image], p);
    assert |f3| == Point(Satisfied(form, Image));
    var f2 := Seqs.Filter([FocusKeywords, Image], p);
    assert |f2| == Point(Satisfied(form, FocusKeywords)) + |f3|;
    var f1 := Seqs.Filter(AllCriteria[1..], p);
    assert |f1| == Point(Satisfied(form, MetaDescription)) + |f2|;
  }
}
