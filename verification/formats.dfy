/**
 Choosing a parser from a file name: Ruby's `File.extname` (Unix rules)
 followed by the two-entry `FILE_TYPES` table of `RepoConfig`.
 */
module Formats {
  import opened Values

  /** The two serialisation formats `FILE_TYPES` knows. */
  datatype Format = Yaml | Json

  predicate IsSuffix(a: string, b: string) {
    |a| <= |b| && b[|b| - |a|..] == a
  }

  lemma SuffixTransitive(a: string, b: string, c: string)
    requires IsSuffix(a, b) && IsSuffix(b, c)
    ensures IsSuffix(a, c)
  {
    assert c[|c| - |a|..] == c[|c| - |b|..][|b| - |a|..];
  }

  /** Trailing directory separators do not belong to the base name. */
  function StripTrailingSlashes(p: string): string {
    if |p| > 0 && p[|p| - 1] == '/' then StripTrailingSlashes(p[..|p| - 1]) else p
  }

  /** The part after the last `/`. */
  function Basename(p: string): string {
    if |p| == 0 then ""
    else if p[|p| - 1] == '/' then ""
    else Basename(p[..|p| - 1]) + [p[|p| - 1]]
  }

  /** A base name's leading dots mark a hidden file, not an extension. */
  function DropLeadingDots(s: string): string {
    if |s| > 0 && s[0] == '.' then DropLeadingDots(s[1..]) else s
  }

  /** The suffix of `s` from its last dot on, or "" when `s` has no dot. */
  function ExtOf(s: string): string {
    if |s| == 0 then ""
    else if s[|s| - 1] == '.' then "."
    else
      var e := ExtOf(s[..|s| - 1]);
      if e == [] then "" else e + [s[|s| - 1]]
  }

  /** Ruby's `File.extname` on Unix. */
  function Extname(path: string): string {
    ExtOf(DropLeadingDots(Basename(StripTrailingSlashes(path))))
  }

  /** `FILE_TYPES[File.extname(path)]`: None is Ruby's nil, an unknown extension. */
  function FormatOf(path: string): Option<Format> {
    var ext := Extname(path);
    if ext == ".yml" then Some(Yaml)
    else if ext == ".json" then Some(Json)
    else None
  }

  lemma {:induction false} BasenameIsLastComponent(p: string)
    ensures IsSuffix(Basename(p), p)
    ensures '/' !in Basename(p)
    decreases |p|
  {
    if |p| > 0 && p[|p| - 1] != '/' {
      var init := p[..|p| - 1];
      BasenameIsLastComponent(init);
      var r := Basename(p);
      assert r == Basename(init) + [p[|p| - 1]];
      assert p[|p| - |r|..] == init[|init| - |Basename(init)|..] + [p[|p| - 1]];
    }
  }

  lemma {:induction false} DropLeadingDotsIsSuffix(s: string)
    ensures IsSuffix(DropLeadingDots(s), s)
    ensures DropLeadingDots(s) == [] || DropLeadingDots(s)[0] != '.'
    decreases |s|
  {
    if |s| > 0 && s[0] == '.' {
      var r := DropLeadingDots(s[1..]);
      DropLeadingDotsIsSuffix(s[1..]);
      assert s[|s| - |r|..] == s[1..][|s| - 1 - |r|..];
    }
  }

  /** The extension is empty for a dot-free name, and otherwise a dot followed by dot-free text ending the name. */
  lemma {:induction false} ExtOfIsLastDotSuffix(s: string)
    ensures IsSuffix(ExtOf(s), s)
    ensures ExtOf(s) == [] ==> '.' !in s
    ensures ExtOf(s) != [] ==> ExtOf(s)[0] == '.' && '.' !in ExtOf(s)[1..]
    decreases |s|
  {
    if |s| > 0 && s[|s| - 1] != '.' {
      var init := s[..|s| - 1];
      var last := s[|s| - 1];
      ExtOfIsLastDotSuffix(init);
      var e := ExtOf(init);
      assert s == init + [last];
      if e != [] {
        var r := e + [last];
        assert s[|s| - |r|..] == init[|init| - |e|..] + [last];
        assert r[1..] == e[1..] + [last];
      }
    }
  }

  /** The extension `File.extname` reports ends the path (ignoring trailing separators) and starts with a dot. */
  lemma ExtnameIsSuffix(path: string)
    ensures IsSuffix(Extname(path), StripTrailingSlashes(path))
    ensures Extname(path) == [] || Extname(path)[0] == '.'
  {
    var base := Basename(StripTrailingSlashes(path));
    var stem := DropLeadingDots(base);
    BasenameIsLastComponent(StripTrailingSlashes(path));
    DropLeadingDotsIsSuffix(base);
    ExtOfIsLastDotSuffix(stem);
    SuffixTransitive(ExtOf(stem), stem, base);
    SuffixTransitive(ExtOf(stem), base, StripTrailingSlashes(path));
  }

  /** The format is chosen by the path's ending alone. */
  lemma FormatFollowsSuffix(path: string)
    ensures FormatOf(path) == Some(Yaml) ==> IsSuffix(".yml", StripTrailingSlashes(path))
    ensures FormatOf(path) == Some(Json) ==> IsSuffix(".json", StripTrailingSlashes(path))
  {
    var ext := Extname(path);
    var stripped := StripTrailingSlashes(path);
    ExtnameIsSuffix(path);
    assert IsSuffix(ext, stripped);
  }

  lemma {:induction false} BasenameAfterSeparator(dir: string, name: string)
    requires dir == [] || dir[|dir| - 1] == '/'
    requires '/' !in name
    ensures Basename(dir + name) == name
    decreases |name|
  {
    if name == [] {
      assert dir + name == dir;
    } else {
      var p := dir + name;
      var init := name[..|name| - 1];
      var last := name[|name| - 1];
      assert p[..|p| - 1] == dir + init && p[|p| - 1] == last by {
        assert name == init + [last];
      }
      assert last != '/' by {
        assert last in name;
      }
      BasenameAfterSeparator(dir, init);
      assert name == init + [last];
    }
  }

  lemma {:induction false} DropLeadingDotsAppend(name: string, tail: string)
    requires exists i :: 0 <= i < |name| && name[i] != '.'
    ensures DropLeadingDots(name + tail) == DropLeadingDots(name) + tail
    decreases |name|
  {
    if name[0] == '.' {
      var i :| 0 <= i < |name| && name[i] != '.';
      assert name[1..][i - 1] == name[i];
      assert (name + tail)[1..] == name[1..] + tail;
      DropLeadingDotsAppend(name[1..], tail);
    }
  }

  lemma {:induction false} ExtOfDotted(stem: string, ext: string)
    requires '.' !in ext
    ensures ExtOf(stem + "." + ext) == "." + ext
    decreases |ext|
  {
    var s := stem + "." + ext;
    if ext == [] {
      assert s[|s| - 1] == '.';
    } else {
      var last := ext[|ext| - 1];
      assert s[|s| - 1] == last;
      assert s[..|s| - 1] == stem + "." + ext[..|ext| - 1];
      ExtOfDotted(stem, ext[..|ext| - 1]);
      assert ("." + ext[..|ext| - 1]) + [last] == "." + ext;
    }
  }

  lemma ConcatAssociative(a: string, b: string, c: string)
    ensures a + (b + c) == a + b + c
  {
  }

  lemma NoSeparatorInDotted(name: string, ext: string)
    requires '/' !in name && '/' !in ext
    ensures '/' !in name + "." + ext
  {
    var file := name + "." + ext;
    forall i | 0 <= i < |file|
      ensures file[i] != '/'
    {
      if i < |name| { assert file[i] == name[i]; }
      else if i > |name| { assert file[i] == ext[i - |name| - 1]; }
    }
  }

  /**
   A file whose base name has a visible stem followed by `.ext` has
   extension `.ext`, whatever directory it sits in.
   */
  lemma ExtnameOfNamedFile(dir: string, name: string, ext: string)
    requires dir == [] || dir[|dir| - 1] == '/'
    requires '/' !in name && '/' !in ext && '.' !in ext && ext != []
    requires exists i :: 0 <= i < |name| && name[i] != '.'
    ensures Extname(dir + name + "." + ext) == "." + ext
  {
    var file := name + "." + ext;
    var path := dir + file;
    assert path == dir + name + "." + ext;
    assert StripTrailingSlashes(path) == path by {
      assert path[|path| - 1] == ext[|ext| - 1];
    }
    NoSeparatorInDotted(name, ext);
    BasenameAfterSeparator(dir, file);
    var stem := DropLeadingDots(name);
    assert DropLeadingDots(file) == stem + "." + ext by {
      DropLeadingDotsAppend(name, "." + ext);
      ConcatAssociative(name, ".", ext);
      ConcatAssociative(stem, ".", ext);
    }
    ExtOfDotted(stem, ext);
  }

  lemma LiteralExtensions()
    ensures "." + "yml" == ".yml" && "." + "json" == ".json"
    ensures '.' !in "yml" && '/' !in "yml" && '.' !in "json" && '/' !in "json"
  {
  }

  /** `.yml` always selects the YAML parser. */
  lemma YmlFileIsYaml(dir: string, name: string)
    requires dir == [] || dir[|dir| - 1] == '/'
    requires '/' !in name
    requires exists i :: 0 <= i < |name| && name[i] != '.'
    ensures FormatOf(dir + name + ".yml") == Some(Yaml)
  {
    var p := dir + name + ".yml";
    assert Extname(p) == ".yml" by {
      LiteralExtensions();
      ExtnameOfNamedFile(dir, name, "yml");
      ConcatAssociative(dir + name, ".", "yml");
    }
  }

  /** `.json` always selects the JSON parser. */
  lemma JsonFileIsJson(dir: string, name: string)
    requires dir == [] || dir[|dir| - 1] == '/'
    requires '/' !in name
    requires exists i :: 0 <= i < |name| && name[i] != '.'
    ensures FormatOf(dir + name + ".json") == Some(Json)
  {
    var p := dir + name + ".json";
    assert Extname(p) == ".json" by {
      LiteralExtensions();
      ExtnameOfNamedFile(dir, name, "json");
      ConcatAssociative(dir + name, ".", "json");
    }
  }
}
