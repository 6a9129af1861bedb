/** Icon file names.  Both versions of the tray look for a file called
    `myIcon_<display name>.ico`; the existing files are given as a set of
    names instead of probing the file system. */
module IconFiles {
  import opened Wrappers

  const IconPrefix: string := "myIcon_"
  const IconExtension: string := ".ico"

  /** The candidate name built by plain concatenation (main.py:216, 224, 234). */
  function PlainIconName(name: string): string {
    IconPrefix + name + IconExtension
  }

  /** Distinct names give distinct concatenated file names. */
  lemma PlainIconNameInjective(a: string, b: string)
    ensures PlainIconName(a) == PlainIconName(b) ==> a == b
  {
    var x := PlainIconName(a);
    var y := PlainIconName(b);
    assert x[|IconPrefix|..|x| - |IconExtension|] == a;
    assert y[|IconPrefix|..|y| - |IconExtension|] == b;
  }

  /** Whether `myIcon_<name>` already has a file suffix in the sense of
      pathlib: its final '.' is neither its first nor its last character.
      The prefix has no dot, so only the name matters. */
  predicate HasPathSuffix(name: string) {
    '.' in name && name[|name| - 1] != '.'
  }

  /** Position of the last occurrence of `c`. */
  function LastIndexOf(s: string, c: char): (i: nat)
    requires c in s
    ensures i < |s| && s[i] == c && c !in s[i + 1..]
  {
    if s[|s| - 1] == c then |s| - 1
    else
      assert c in s[..|s| - 1] by {
        var k :| 0 <= k < |s| && s[k] == c;
        assert s[..|s| - 1][k] == c;
      }
      LastIndexOf(s[..|s| - 1], c)
  }

  /** The path probed by `get_image_path` (prj_pystray.py:15-23):
      `Path('myIcon_' + name).with_suffix('.ico')`. */
  function IconFileName(name: string): string {
    if HasPathSuffix(name) then IconPrefix + name[..LastIndexOf(name, '.')] + IconExtension
    else PlainIconName(name)
  }

  /** `with_suffix` REPLACES a suffix the name already has, so the probed
      file agrees with plain concatenation exactly when the name has no such
      suffix; otherwise the stem is the name cut at its LAST dot: what
      follows the cut is a dot and then no further dot. */
  lemma IconFileNameSpec(name: string)
    ensures var f := IconFileName(name);
      && (f == PlainIconName(name) <==> !HasPathSuffix(name))
      && |IconPrefix| + |IconExtension| <= |f|
      && f[..|IconPrefix|] == IconPrefix
      && f[|f| - |IconExtension|..] == IconExtension
      && f[|IconPrefix|..|f| - |IconExtension|] <= name
      && (HasPathSuffix(name) ==> var m := f[|IconPrefix|..|f| - |IconExtension|];
            |m| < |name| && name[|m|] == '.' && '.' !in name[|m| + 1..])
  {
    var f := IconFileName(name);
    if HasPathSuffix(name) {
      var k := LastIndexOf(name, '.');
      assert |f| < |PlainIconName(name)|;
      assert f[|IconPrefix|..|f| - |IconExtension|] == name[..k];
    } else {
      assert f[|IconPrefix|..|f| - |IconExtension|] == name;
    }
  }

  /** A display name with an inner dot probes a different file than the
      older version's concatenation: "v1.2" looks for `myIcon_v1.ico`. */
  lemma DottedNameLosesSuffix()
    ensures IconFileName("v1.2") == "myIcon_v1.ico"
    ensures PlainIconName("v1.2") == "myIcon_v1.2.ico"
  {
    assert HasPathSuffix("v1.2");
    assert LastIndexOf("v1.2", '.') == 2 by {
      assert "v1.2"[|"v1.2"| - 1] != '.';
      assert "v1.2"[..3] == "v1.";
    }
  }

  /** `get_image_path`: the probed path when that file exists, else `None`. */
  function ImagePath(name: string, existing: set<string>): (r: Option<string>)
    ensures r.Some? <==> IconFileName(name) in existing
    ensures r.Some? ==> r.value == IconFileName(name) && r.value in existing
  {
    var f := IconFileName(name);
    if f in existing then Some(f) else None
  }

  /** The older version's check `"myIcon_" + name + ".ico" in icons`,
      where `icons` lists the `.ico` files present (main.py:216-218). */
  function ListedIcon(name: string, icons: set<string>): (r: Option<string>)
    ensures r.Some? <==> PlainIconName(name) in icons
    ensures r.Some? ==> r.value == PlainIconName(name) && r.value in icons
  {
    var f := PlainIconName(name);
    if f in icons then Some(f) else None
  }
}
