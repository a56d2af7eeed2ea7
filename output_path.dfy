/** Where `main` in inspect_script/derive_SEFD.py writes its result: the
    dataset path loses one trailing '/', its last '/'-separated component
    names the dataset, and the file is `<pathdir>/<name>.SEFDant.npy`. */
module OutputPath {

  /** The clean-up at the top of `main` (derive_SEFD.py:96): at most one
      trailing '/' is removed. */
  function StripTrailingSlash(path: string): (r: string)
    ensures path == r || path == r + "/"
    ensures path == r ==> path == [] || path[|path| - 1] != '/'
  {
    if |path| > 0 && path[|path| - 1] == '/' then path[..|path| - 1] else path
  }

  /** `s.split("/")[-1]`: the text after the last '/', or all of `s` when it
      has none. */
  function LastComponent(s: string): (name: string)
    ensures '/' !in name
    ensures |name| <= |s| && s[|s| - |name|..] == name
    ensures |name| < |s| ==> s[|s| - |name| - 1] == '/'
  {
    if s == [] then []
    else if s[|s| - 1] == '/' then []
    else LastComponent(s[..|s| - 1]) + [s[|s| - 1]]
  }

  /** The file name `main` saves to. */
  function SefdOutputPath(pathdir: string, calmspath: string): (r: string)
    ensures |r| >= |pathdir| + 1 + |".SEFDant.npy"|
    ensures r[..|pathdir| + 1] == pathdir + "/"
    ensures r[|r| - |".SEFDant.npy"|..] == ".SEFDant.npy"
    ensures '/' !in r[|pathdir| + 1 .. |r| - |".SEFDant.npy"|]
    ensures var p, name := StripTrailingSlash(calmspath), r[|pathdir| + 1 .. |r| - |".SEFDant.npy"|];
      |name| <= |p| && p[|p| - |name|..] == name && (|name| < |p| ==> p[|p| - |name| - 1] == '/')
  {
    pathdir + "/" + LastComponent(StripTrailingSlash(calmspath)) + ".SEFDant.npy"
  }

  /** The three ensures of LastComponent pin it down: a component with no '/'
      that follows a '/' (or starts the string) is the last component. */
  lemma {:induction false} LastComponentOf(prefix: string, name: string)
    requires '/' !in name
    requires prefix == [] || prefix[|prefix| - 1] == '/'
    ensures LastComponent(prefix + name) == name
  {
    if name != [] {
      var front, last := name[..|name| - 1], name[|name| - 1];
      assert name == front + [last];
      assert (prefix + name)[..|prefix + name| - 1] == prefix + front;
      LastComponentOf(prefix, front);
    }
  }

  /** A dataset `<prefix><name>`, where the prefix is empty (a bare name such
      as `cal.ms`) or ends in '/', given with or without one trailing '/', is
      saved as `<pathdir>/<name>.SEFDant.npy`. */
  lemma OutputPathOfDataset(pathdir: string, prefix: string, name: string, trailingSlash: bool)
    requires '/' !in name && name != []
    requires prefix == [] || prefix[|prefix| - 1] == '/'
    ensures SefdOutputPath(pathdir, prefix + name + (if trailingSlash then "/" else ""))
      == pathdir + "/" + name + ".SEFDant.npy"
  {
    var path := prefix + name;
    assert StripTrailingSlash(path + (if trailingSlash then "/" else "")) == path by {
      if trailingSlash {
        assert (path + "/")[..|path + "/"| - 1] == path;
      } else {
        assert path[|path| - 1] == name[|name| - 1];
      }
    }
    LastComponentOf(prefix, name);
  }

  /** Only one '/' is stripped: a path ending in "//" yields an empty name. */
  lemma DoubleSlashGivesEmptyName(pathdir: string, parent: string)
    ensures SefdOutputPath(pathdir, parent + "//") == pathdir + "/" + ".SEFDant.npy"
  {
    assert (parent + "//")[..|parent + "//"| - 1] == parent + "/";
  }
}
