/** Path construction in bootstrap.php: base_path, which joins the project
    root and a relative path, and the class autoloader's mapping from a class
    name under the `App\` namespace to the file that defines it. The directory
    separator is fixed to '/'. */
module Paths {
  import opened Options
  import opened Strings

  const DirectorySeparator: char := '/'

  /** base_path: the root alone for the empty path, otherwise the root, one
      separator and the path without its leading separators. */
  function BasePath(root: string, path: string): (r: string)
    ensures path == "" ==> r == root
    ensures path != "" ==> StartsWith(r, root + [DirectorySeparator])
  {
    root + (if path != "" then [DirectorySeparator] + TrimLeft(path, {DirectorySeparator}) else "")
  }

  /** base_path('') is the root itself. */
  lemma BasePathEmpty(root: string)
    ensures BasePath(root, "") == root
  {
  }

  /** For a non-empty path the result is the root and one separator followed by
      a tail of the path that does not start with a separator, and everything
      the tail leaves out of the path is separators. */
  lemma BasePathJoin(root: string, path: string)
    requires path != ""
    ensures StartsWith(BasePath(root, path), root + [DirectorySeparator])
    ensures var rest := BasePath(root, path)[|root| + 1..];
      EndsWith(path, rest) &&
      (rest == "" || rest[0] != DirectorySeparator) &&
      forall i :: 0 <= i < |path| - |rest| ==> path[i] == DirectorySeparator
  {
    var rest := TrimLeft(path, {DirectorySeparator});
    var r := BasePath(root, path);
    assert r == root + [DirectorySeparator] + rest;
    assert r[..|root| + 1] == root + [DirectorySeparator];
    assert r[|root| + 1..] == rest;
  }

  /** A path without a leading separator is appended after exactly one separator. */
  lemma BasePathRelative(root: string, path: string)
    requires path != "" && path[0] != DirectorySeparator
    ensures BasePath(root, path) == root + "/" + path
  {
  }

  /** Leading separators make no difference to a non-empty path. */
  lemma BasePathLeadingSeparator(root: string, path: string)
    requires path != ""
    ensures BasePath(root, "/" + path) == BasePath(root, path)
  {
    var p := "/" + path;
    assert p[1..] == path;
    assert LeadingCount(p, {DirectorySeparator}) == 1 + LeadingCount(path, {DirectorySeparator});
    assert p[LeadingCount(p, {DirectorySeparator})..] == path[LeadingCount(path, {DirectorySeparator})..];
  }

  /** The path "/" names the root followed by a separator, which is not the root
      that the empty path names. */
  lemma BasePathSeparatorOnly(root: string)
    ensures BasePath(root, "/") == root + "/"
    ensures BasePath(root, "/") != BasePath(root, "")
  {
    assert LeadingCount("/", {DirectorySeparator}) == 1;
  }

  /** The namespace prefix the autoloader handles. */
  const ClassPrefix: string := "App\\"

  /** The file the autoloader would load for class `cls`, or None when the
      class is outside the `App\` namespace: the rest of the name with every
      '\' turned into '/', under app/ and with the .php extension. */
  function ClassFile(root: string, cls: string): (file: Option<string>)
    ensures file.None? <==> !StartsWith(cls, ClassPrefix)
  {
    if !StartsWith(cls, ClassPrefix) then None
    else
      var relative := cls[|ClassPrefix|..];
      Some(BasePath(root, "app/" + Replace(relative, '\\', '/') + ".php"))
  }

  /** Under the prefix the file is root/app/<name with '/' for '\'>.php; when the
      class name has no '/' of its own, the class name can be read back from
      that file path. */
  lemma ClassFileLayout(root: string, cls: string)
    requires StartsWith(cls, ClassPrefix)
    ensures var middle := Replace(cls[|ClassPrefix|..], '\\', '/');
      ClassFile(root, cls) == Some(root + "/app/" + middle + ".php") &&
      '\\' !in middle &&
      ('/' !in cls ==> ClassPrefix + Replace(middle, '/', '\\') == cls)
  {
    var relative := cls[|ClassPrefix|..];
    var middle := Replace(relative, '\\', '/');
    var path := "app/" + middle + ".php";
    assert path[0] == 'a';
    BasePathRelative(root, path);
    assert root + "/" + path == root + "/app/" + middle + ".php";
    if '/' !in cls {
      ReplaceBack(relative, '\\', '/');
      assert cls == cls[..|ClassPrefix|] + relative;
    }
  }

  /** Distinct classes under the prefix, with no '/' in their names, are
      loaded from distinct files. */
  lemma ClassFileInjective(root: string, a: string, b: string)
    requires StartsWith(a, ClassPrefix) && StartsWith(b, ClassPrefix)
    requires '/' !in a && '/' !in b
    requires ClassFile(root, a) == ClassFile(root, b)
    ensures a == b
  {
    ClassFileLayout(root, a);
    ClassFileLayout(root, b);
    var ma := Replace(a[|ClassPrefix|..], '\\', '/');
    var mb := Replace(b[|ClassPrefix|..], '\\', '/');
    var fa := root + "/app/" + ma + ".php";
    var fb := root + "/app/" + mb + ".php";
    assert |ma| == |mb|;
    assert ma == fa[|root| + 5..|fa| - 4];
    assert mb == fb[|root| + 5..|fb| - 4];
  }
}
