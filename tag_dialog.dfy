/**
 * The admin tag dialog: its validation schema (name and slug must not be empty), the
 * form reset when the dialog opens, and the slug generated from the name of a new tag.
 */
module TagDialog {
  import opened Wrappers
  import Slug

  /** A tag handed to the dialog for editing. */
  datatype Tag = Tag(id: Option<string>, name: string, slug: string)

  /** The dialog's form values. */
  datatype TagForm = TagForm(id: Option<string>, name: string, slug: string)

  datatype Field = Name | SlugField

  const NameRequired: string := "Tên thẻ không được để trống"
  const SlugRequired: string := "Slug không được để trống"

  /**
   * `tagSchema`: the error message of each field that breaks its rule; `name` and `slug`
   * must each hold at least one character, and `id` is optional.
   */
  function SchemaErrors(form: TagForm): (errors: map<Field, string>)
    ensures Name in errors <==> |form.name| < 1
    ensures SlugField in errors <==> |form.slug| < 1
    ensures Name in errors ==> errors[Name] == NameRequired
    ensures SlugField in errors ==> errors[SlugField] == SlugRequired
  {
    var nameErrors := if |form.name| < 1 then map[Name := NameRequired] else map[];
    if |form.slug| < 1 then nameErrors[SlugField := SlugRequired] else nameErrors
  }

  /** The schema accepts the form exactly when name and slug are both non-empty. */
  lemma SchemaAcceptsIffNonEmpty(form: TagForm)
    ensures SchemaErrors(form) == map[] <==> form.name != "" && form.slug != ""
  {
    if form.name == "" {
      assert Name in SchemaErrors(form);
    } else if form.slug == "" {
      assert SlugField in SchemaErrors(form);
    }
  }

  /**
   * The effect run when `tag` or `open` change: opening for an existing tag pre-fills its
   * id, name and slug; opening for a new tag resets name and slug to "" and drops the id;
   * a closed dialog keeps its values.
   */
  function OnOpen(form: TagForm, tag: Option<Tag>, open: bool): (r: TagForm)
    ensures open && tag.Some? ==> r == TagForm(tag.value.id, tag.value.name, tag.value.slug)
    ensures open && tag.None? ==> r == TagForm(None, "", "")
    ensures !open ==> r == form
  {
    if tag.Some? && open then TagForm(tag.value.id, tag.value.name, tag.value.slug)
    else if open then TagForm(None, "", "")
    else form
  }

  /**
   * The effect run when the name changes: for a new tag with a non-empty name the slug
   * becomes the well-formed slug generated from the name; when editing an existing tag, or
   * when the name is empty, the form is left as it is.
   */
  function AutoSlug(form: TagForm, tag: Option<Tag>): (r: TagForm)
    ensures r.id == form.id && r.name == form.name
    ensures form.name != "" && tag.None? ==> r.slug == Slug.GenerateSlug(form.name) && Slug.IsSlug(r.slug)
    ensures form.name == "" || tag.Some? ==> r == form
  {
    Slug.GenerateSlugIsSlug(form.name);
    if form.name != "" && tag.None? then form.(slug := Slug.GenerateSlug(form.name)) else form
  }

  /**
   * A new tag whose name has no letter or digit gets an empty generated slug, which the
   * schema then rejects; a name with one gets a non-empty slug.
   */
  lemma LetterlessNameRejected(form: TagForm)
    requires form.name != ""
    ensures var r := AutoSlug(form, None);
      (SlugField in SchemaErrors(r) <==> !Slug.HasSlugLetter(form.name))
  {
    Slug.EmptySlugIffNoLetters(form.name);
  }
}
