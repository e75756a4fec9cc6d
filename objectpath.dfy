/**
 * Object paths (TQT_DBusObjectPath): the library's own validity check, the
 * parent computation and the parent+node constructor.  A path is a string.
 */
module ObjectPaths {

  /** Index of the last occurrence of `c` in `s`, -1 when there is none (TQString::findRev). */
  function LastIndexOf(s: string, c: char): (r: int)
    ensures -1 <= r < |s|
    ensures r >= 0 ==> s[r] == c
    ensures forall j :: r < j < |s| ==> s[j] != c
  {
    if s == [] then -1
    else if s[|s| - 1] == c then |s| - 1
    else LastIndexOf(s[..|s| - 1], c)
  }

  /**
   * The library's validation: -1 for an acceptable path, otherwise the index
   * of the offending character (0 when the path is empty or does not start
   * with a slash, the last index when a longer path ends with a slash).
   */
  function Validate(path: string): (r: int)
    ensures r == -1 <==> |path| > 0 && path[0] == '/' && (|path| == 1 || path[|path| - 1] != '/')
    ensures r == 0 <==> path == [] || path[0] != '/'
    ensures r > 0 ==> |path| > 1 && r == |path| - 1 && path[r] == '/'
  {
    if path == [] || path[0] != '/' then 0
    else if path[|path| - 1] == '/' && |path| > 1 then |path| - 1
    else -1
  }

  predicate IsValid(path: string)
  {
    Validate(path) == -1
  }

  /**
   * The parent node: empty for a one-character path or a path without a
   * slash, "/" when the only slash left is the leading one, otherwise the
   * prefix before the last slash.
   */
  function ParentNode(path: string): (r: string)
    ensures |path| == 1 || '/' !in path ==> r == []
    ensures |path| > 1 && path[0] == '/' && '/' !in path[1..] ==> r == "/"
    ensures forall i :: 0 < i < |path| && path[i] == '/' && '/' !in path[i + 1..] ==> r == path[..i]
    ensures |r| < |path| || r == []
  {
    if |path| == 1 then []
    else
      var index := LastIndexOf(path, '/');
      if index == -1 then []
      else if index == 0 then path[..1]
      else path[..index]
  }

  /** The child constructor: the parent, a separating slash unless the parent is one character long, the node name. */
  function Child(parent: string, name: string): (r: string)
    ensures |r| == |parent| + |name| + (if |parent| == 1 then 0 else 1)
    ensures r[..|parent|] == parent && r[|r| - |name|..] == name
    ensures |parent| != 1 ==> r[|parent|] == '/'
  {
    parent + (if |parent| == 1 then "" else "/") + name
  }

  /** A valid parent with a non-empty, slash-free node name gives a valid child. */
  lemma ChildIsValid(parent: string, name: string)
    requires IsValid(parent) && name != [] && '/' !in name
    ensures IsValid(Child(parent, name))
  {
    var c := Child(parent, name);
    assert c[0] == parent[0];
    assert c[|c| - 1] == name[|name| - 1];
  }

  /** The parent of a child is the parent it was built from. */
  lemma ParentOfChild(parent: string, name: string)
    requires IsValid(parent) && '/' !in name
    requires parent != "/" || name != []
    ensures ParentNode(Child(parent, name)) == parent
  {
    var c := Child(parent, name);
    var sep := if |parent| == 1 then |parent| - 1 else |parent|;
    assert c[sep] == '/';
    assert forall j :: sep < j < |c| ==> c[j] != '/' by {
      forall j | sep < j < |c| ensures c[j] != '/' {
        assert c[j] == name[j - (|c| - |name|)];
      }
    }
    var index := LastIndexOf(c, '/');
    assert index == sep;
    if |parent| == 1 {
      assert parent == "/";
      assert c[..1] == parent;
    } else {
      assert c[..index] == parent;
    }
  }

  /**
   * The check inspects only the first and last character: a path with an
   * empty segment is accepted, and its parent is then not valid.
   */
  lemma EmptySegmentAccepted()
    ensures IsValid("/a//b") && !IsValid(ParentNode("/a//b"))
  {
    assert LastIndexOf("/a//b", '/') == 3;
    assert ParentNode("/a//b") == "/a/";
  }
}
