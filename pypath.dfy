/** `posixpath.dirname`, the one path operation the script applies to repository paths. */
module PyPath {
  import opened Wrappers

  /** `s.rfind(c)`: the last index holding `c`. */
  function RFind(s: string, c: char): (r: Option<nat>)
    ensures r.Some? ==> r.value < |s| && s[r.value] == c
    ensures r.Some? ==> forall k :: r.value < k < |s| ==> s[k] != c
    ensures r.None? ==> c !in s
  {
    if s == "" then None
    else if s[|s| - 1] == c then Some(|s| - 1)
    else
      var r := RFind(s[..|s| - 1], c);
      assert s == s[..|s| - 1] + [s[|s| - 1]];
      r
  }

  /** `s.rstrip(c)` for one character. */
  function RStrip(s: string, c: char): (r: string)
    ensures r <= s
    ensures r == "" || r[|r| - 1] != c
    ensures forall k :: |r| <= k < |s| ==> s[k] == c
  {
    if s != "" && s[|s| - 1] == c then RStrip(s[..|s| - 1], c) else s
  }

  predicate AllSlashes(s: string)
  {
    forall k :: 0 <= k < |s| ==> s[k] == '/'
  }

  /**
   * `posixpath.dirname(p)`: everything up to and including the last "/",
   * with trailing slashes removed unless nothing but slashes is left.
   */
  function Dirname(p: string): (r: string)
    ensures r <= p
    ensures '/' !in p ==> r == ""
  {
    var i := match RFind(p, '/') case None => 0 case Some(k) => k + 1;
    var head := p[..i];
    if head != "" && !AllSlashes(head) then RStrip(head, '/') else head
  }

  /** A trailing "\n" does not change the directory part of a path. */
  lemma DirnameIgnoresNewline(p: string)
    ensures Dirname(p + "\n") == Dirname(p)
  {
    var q := p + "\n";
    assert q[..|q| - 1] == p;
    assert RFind(q, '/') == RFind(p, '/');
    var i := match RFind(p, '/') case None => 0 case Some(k) => k + 1;
    assert q[..i] == p[..i];
  }

  /** The parent of "dir/name" is "dir" when "dir" does not end with "/". */
  lemma {:induction false} DirnameOfChild(dir: string, name: string)
    requires dir != "" && dir[|dir| - 1] != '/' && '/' !in name
    ensures Dirname(dir + "/" + name) == dir
  {
    var p := dir + "/" + name;
    assert p[|dir|] == '/';
    forall k | |dir| < k < |p| ensures p[k] != '/' {
      assert p[k] == name[k - |dir| - 1];
    }
    assert p[|dir|] in p;
    assert RFind(p, '/') == Some(|dir|);
    var head := p[..|dir| + 1];
    assert head == dir + "/";
    assert head[|dir| - 1] != '/';
    assert !AllSlashes(head);
    assert head[..|head| - 1] == dir;
  }

  /** A file directly under the root has "/" as its parent. */
  lemma DirnameAtRoot(name: string)
    requires '/' !in name
    ensures Dirname("/" + name) == "/"
  {
    var p := "/" + name;
    forall k | 0 < k < |p| ensures p[k] != '/' {
      assert p[k] == name[k - 1];
    }
    assert p[0] in p;
    assert RFind(p, '/') == Some(0);
    assert p[..1] == "/";
  }
}
