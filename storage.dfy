/**
 * The string handling of the storage service: the extension taken from an uploaded file's
 * name, the generated object path, and the object name taken from a stored image's URL.
 * The random token of a generated name is a parameter; uploads and removals are left out.
 */
module Storage {
  import opened Wrappers
  import Strings

  /** `file.name.split(".").pop()`: the text after the last '.', or the whole name without one. */
  function Extension(fileName: string): (ext: string)
    ensures '.' !in ext
    ensures '.' !in fileName ==> ext == fileName
    ensures '.' in fileName ==> |ext| < |fileName| && fileName[|fileName| - |ext| - 1] == '.'
    ensures fileName[|fileName| - |ext|..] == ext
  {
    Strings.AfterLastIsFinalSegment(fileName, '.');
    Strings.AfterLast(fileName, '.')
  }

  /** The object path of an uploaded post image: `<token>.<ext>`. */
  function PostImagePath(token: string, fileName: string): string {
    token + "." + Extension(fileName)
  }

  /** The object path of an uploaded tag image: `tag-<token>.<ext>`. */
  function TagImagePath(token: string, fileName: string): string {
    "tag-" + token + "." + Extension(fileName)
  }

  /**
   * A generated path keeps the uploaded file's extension: when the random token holds no
   * '.', the extension read back from the path is the file's own. Tag paths also start
   * with "tag-".
   */
  lemma GeneratedPathKeepsExtension(token: string, fileName: string)
    requires '.' !in token
    ensures Extension(PostImagePath(token, fileName)) == Extension(fileName)
    ensures Extension(TagImagePath(token, fileName)) == Extension(fileName)
    ensures Strings.StartsWith(TagImagePath(token, fileName), "tag-")
    ensures PostImagePath(token, fileName)[..|token|] == token
  {
    var ext := Extension(fileName);
    assert PostImagePath(token, fileName) == token + ['.'] + ext;
    assert TagImagePath(token, fileName) == ("tag-" + token) + ['.'] + ext;
    Strings.AfterLastOfJoined(token, ext, '.');
    Strings.AfterLastOfJoined("tag-" + token, ext, '.');
  }

  /**
   * `path.split("/").pop()` followed by the `if (!fileName) return` guard: the object to
   * remove, or None when the path ends with '/' or is empty and nothing is removed.
   */
  function DeleteTarget(path: string): (target: Option<string>)
    ensures target.None? <==> path == [] || path[|path| - 1] == '/'
    ensures target.Some? ==> target.value != [] && '/' !in target.value
    ensures target.Some? ==> |target.value| <= |path| && path[|path| - |target.value|..] == target.value
    ensures target.Some? && '/' in path ==>
      |target.value| < |path| && path[|path| - |target.value| - 1] == '/'
    ensures '/' !in path && path != [] ==> target == Some(path)
  {
    var name := Strings.AfterLast(path, '/');
    Strings.AfterLastIsFinalSegment(path, '/');
    if name == [] then None
    else
      assert path[|path| - 1] == name[|name| - 1];
      Some(name)
  }

  /** A stored image's public URL yields the object name it was uploaded under. */
  lemma DeleteTargetOfPublicUrl(prefix: string, token: string, fileName: string)
    requires '/' !in token && '/' !in fileName
    ensures DeleteTarget(prefix + "/" + PostImagePath(token, fileName)) == Some(PostImagePath(token, fileName))
  {
    var name := PostImagePath(token, fileName);
    var ext := Extension(fileName);
    assert ext == fileName[|fileName| - |ext|..];
    assert forall i :: 0 <= i < |ext| ==> ext[i] == fileName[|fileName| - |ext| + i];
    assert '/' !in name;
    assert prefix + "/" + name == prefix + ['/'] + name;
    Strings.AfterLastOfJoined(prefix, name, '/');
  }
}
