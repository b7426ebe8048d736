/**
 * The comment form under a blog post: its validation, the trimmed comment it submits and
 * how the form and its error messages are reset afterwards.
 */
module CommentSection {
  import opened Wrappers
  import Strings

  const AuthorKey: string := "author_name"
  const ContentKey: string := "content"
  const SubmitKey: string := "submit"

  const AuthorMissing: string := "Vui lòng nhập tên của bạn"
  const ContentMissing: string := "Vui lòng nhập nội dung bình luận"
  const SubmitFailed: string := "Không thể gửi bình luận. Vui lòng thử lại."

  /** A field is blank when nothing is left of it after `trim()`. */
  predicate Blank(s: string) {
    Strings.Trim(s) == ""
  }

  /** The errors `validateForm` collects: one entry per blank field, keyed by the field's name. */
  function FormErrors(authorName: string, content: string): (errors: map<string, string>)
    ensures AuthorKey in errors <==> Blank(authorName)
    ensures ContentKey in errors <==> Blank(content)
    ensures forall k :: k in errors ==> k == AuthorKey || k == ContentKey
    ensures AuthorKey in errors ==> errors[AuthorKey] == AuthorMissing
    ensures ContentKey in errors ==> errors[ContentKey] == ContentMissing
  {
    assert AuthorKey[0] != ContentKey[0];
    var withAuthor: map<string, string> := if Blank(authorName) then map[AuthorKey := AuthorMissing] else map[];
    if Blank(content) then withAuthor[ContentKey := ContentMissing] else withAuthor
  }

  /**
   * The form is valid exactly when it produces no error, which is exactly when neither field
   * consists only of whitespace.
   */
  lemma ValidIffBothFilled(authorName: string, content: string)
    ensures |FormErrors(authorName, content)| == 0 <==>
      !Strings.AllWhitespace(authorName) && !Strings.AllWhitespace(content)
  {
    Strings.TrimEmptyIffBlank(authorName);
    Strings.TrimEmptyIffBlank(content);
    var errors := FormErrors(authorName, content);
    if Blank(authorName) {
      assert AuthorKey in errors;
    } else if Blank(content) {
      assert ContentKey in errors;
    } else {
      assert errors == map[];
    }
  }

  /** The record `handleSubmit` sends to `addComment`. */
  datatype NewComment = NewComment(postId: string, authorName: string, content: string)

  /** The comment built from the form: the post's id and the two fields trimmed. */
  function CommentOf(postId: string, authorName: string, content: string): NewComment {
    NewComment(postId, Strings.Trim(authorName), Strings.Trim(content))
  }

  /**
   * A comment built from a valid form has a non-empty name and content, neither starting
   * nor ending with whitespace, and trimming it again changes nothing.
   */
  lemma SubmittedCommentIsTrimmed(postId: string, authorName: string, content: string)
    requires FormErrors(authorName, content) == map[]
    ensures var c := CommentOf(postId, authorName, content);
      && c.postId == postId
      && c.authorName != "" && c.content != ""
      && !Strings.IsWhitespace(c.authorName[0]) && !Strings.IsWhitespace(c.authorName[|c.authorName| - 1])
      && !Strings.IsWhitespace(c.content[0]) && !Strings.IsWhitespace(c.content[|c.content| - 1])
      && Strings.Trim(c.authorName) == c.authorName && Strings.Trim(c.content) == c.content
  {
    assert AuthorKey !in FormErrors(authorName, content);
    assert ContentKey !in FormErrors(authorName, content);
    FilledFieldTrimmed(authorName);
    FilledFieldTrimmed(content);
  }

  lemma FilledFieldTrimmed(s: string)
    requires !Blank(s)
    ensures var t := Strings.Trim(s);
      t != "" && !Strings.IsWhitespace(t[0]) && !Strings.IsWhitespace(t[|t| - 1]) && Strings.Trim(t) == t
  {
    Strings.TrimRemovesOnlyOuterWhitespace(s);
    Strings.TrimIdempotent(s);
  }

  /** The form's state: the two fields and the error messages shown beside them. */
  class CommentForm {
    var authorName: string
    var content: string
    var errors: map<string, string>

    constructor()
      ensures authorName == "" && content == "" && errors == map[]
    {
      authorName := "";
      content := "";
      errors := map[];
    }

    /** `validateForm`: replaces the shown errors by the form's errors; valid when there are none. */
    method ValidateForm() returns (valid: bool)
      modifies this
      ensures errors == FormErrors(authorName, content)
      ensures valid <==> errors == map[]
      ensures authorName == old(authorName) && content == old(content)
    {
      var newErrors: map<string, string> := map[];
      if Blank(authorName) {
        newErrors := newErrors[AuthorKey := AuthorMissing];
      }
      if Blank(content) {
        newErrors := newErrors[ContentKey := ContentMissing];
      }
      assert newErrors == FormErrors(authorName, content);
      errors := newErrors;
      valid := |newErrors| == 0;
      assert valid <==> newErrors == map[] by {
        if !valid {
          assert AuthorKey in newErrors || ContentKey in newErrors;
        }
      }
    }

    /**
     * `handleSubmit`: an invalid form submits nothing and shows its errors. A valid one
     * submits the trimmed comment; on success the fields and errors are cleared, on failure
     * the fields are kept and only the submit error is shown.
     */
    method HandleSubmit(postId: string, addFails: bool) returns (submitted: Option<NewComment>)
      modifies this
      ensures submitted.None? <==> FormErrors(old(authorName), old(content)) != map[]
      ensures submitted.None? ==>
        && errors == FormErrors(old(authorName), old(content))
        && authorName == old(authorName) && content == old(content)
      ensures submitted.Some? ==> submitted.value == CommentOf(postId, old(authorName), old(content))
      ensures submitted.Some? && !addFails ==> authorName == "" && content == "" && errors == map[]
      ensures submitted.Some? && addFails ==>
        && authorName == old(authorName) && content == old(content)
        && errors == map[SubmitKey := SubmitFailed]
    {
      var valid := ValidateForm();
      if !valid {
        return None;
      }
      var comment := NewComment(postId, Strings.Trim(authorName), Strings.Trim(content));
      if addFails {
        errors := map[SubmitKey := SubmitFailed];
      } else {
        authorName := "";
        content := "";
        errors := map[];
      }
      return Some(comment);
    }
  }
}
