/** The language decision of the Rust ingester (src/main.rs): the extension
    Rust's Path::extension reports for a path read from standard input, and
    the case-sensitive match that picks the C or the C++ grammar. */
module Language {
  import opened Common

  datatype Lang = Cpp | C

  /** The grammar for an extension, or None for an unknown language. */
  function LanguageFor(ext: string): (r: Option<Lang>)
    ensures r == Some(Cpp) <==> ext in {"cpp", "cxx", "cc", "hpp", "hxx", "h"}
    ensures r == Some(C) <==> ext == "c"
    ensures r == None <==> ext !in {"cpp", "cxx", "cc", "hpp", "hxx", "h", "c"}
  {
    match ext
    case "cpp" => Some(Cpp)
    case "cxx" => Some(Cpp)
    case "cc" => Some(Cpp)
    case "hpp" => Some(Cpp)
    case "hxx" => Some(Cpp)
    case "h" => Some(Cpp)
    case "c" => Some(C)
    case _ => None
  }

  /** The match compares exact text: upper-case spellings are unknown. */
  lemma LanguageIsCaseSensitive()
    ensures LanguageFor("C") == None && LanguageFor("CPP") == None
    ensures LanguageFor("H") == None && LanguageFor("Cc") == None
  {
  }

  /** The index of the last occurrence of c in s. */
  function LastIndexOf(s: string, c: char): (r: Option<nat>)
    ensures r.None? <==> c !in s
    ensures r.Some? ==> r.value < |s| && s[r.value] == c && c !in s[r.value + 1..]
  {
    if s == [] then None
    else if s[|s| - 1] == c then Some(|s| - 1)
    else LastIndexOf(s[..|s| - 1], c)
  }

  /** The last component of a '/'-separated path, skipping the empty and
      "." components Rust's path parser drops. */
  function LastComponent(path: string): (r: Option<string>)
    ensures r.Some? ==> r.value != [] && r.value != "." && '/' !in r.value
    ensures '/' !in path && path != [] && path != "." ==> r == Some(path)
    decreases |path|
  {
    match LastIndexOf(path, '/')
    case None => if path == [] || path == "." then None else Some(path)
    case Some(k) =>
      var last := path[k + 1..];
      if last == [] || last == "." then LastComponent(path[..k]) else Some(last)
  }

  /** Path::file_name: the last component unless it is "..". */
  function FileName(path: string): (r: Option<string>)
    ensures r.Some? ==> r.value != [] && r.value != "." && r.value != ".." && '/' !in r.value
  {
    match LastComponent(path)
    case None => None
    case Some(name) => if name == ".." then None else Some(name)
  }

  /** Path::extension: what follows the last '.' of the file name, unless
      there is no '.' or the only one opens the name (".bashrc"). */
  function Extension(path: string): (r: Option<string>)
    ensures r.None? <==> (FileName(path).None? || '.' !in FileName(path).value[1..])
    ensures r.Some? ==>
      var name := FileName(path).value;
      && '.' !in r.value
      && |r.value| + 1 < |name|
      && name[|name| - |r.value| - 1] == '.'
      && name[|name| - |r.value|..] == r.value
  {
    match FileName(path)
    case None => None
    case Some(name) =>
      match LastIndexOf(name, '.')
      case None => None
      case Some(k) =>
        if k == 0 then
          assert '.' !in name[1..] by { assert name[1..] == name[k + 1..]; }
          None
        else
          assert name[k] in name[1..] by { assert name[1..][k - 1] == name[k]; }
          Some(name[k + 1..])
  }

  /** The last occurrence is the one with no occurrence after it. */
  lemma {:induction false} LastIndexOfAt(s: string, c: char, k: nat)
    requires k < |s| && s[k] == c && c !in s[k + 1..]
    ensures LastIndexOf(s, c) == Some(k)
    decreases |s|
  {
    if s[|s| - 1] != c {
      assert k < |s| - 1 by {
        if k + 1 < |s| { assert s[|s| - 1] == s[k + 1..][|s| - k - 2]; }
      }
      assert s[..|s| - 1][k + 1..] == s[k + 1..|s| - 1];
      LastIndexOfAt(s[..|s| - 1], c, k);
    }
  }

  lemma ExtensionOfSourceFile()
    ensures Extension("src/main.c") == Some("c")
  {
    var path := "src/main.c";
    assert path[4..] == "main.c";
    LastIndexOfAt(path, '/', 3);
    assert LastComponent(path) == Some("main.c");
    assert "main.c"[5..] == "c";
    LastIndexOfAt("main.c", '.', 4);
  }

  lemma ExtensionIsAfterLastDot()
    ensures Extension("a.tar.gz") == Some("gz")
  {
    assert '/' !in "a.tar.gz";
    assert FileName("a.tar.gz") == Some("a.tar.gz");
    assert "a.tar.gz"[6..] == "gz";
    LastIndexOfAt("a.tar.gz", '.', 5);
  }

  lemma ExtensionMissing()
    ensures Extension("Makefile") == None
    ensures Extension(".bashrc") == None
  {
    assert '/' !in "Makefile" && '.' !in "Makefile";
    assert FileName("Makefile") == Some("Makefile");
    assert '/' !in ".bashrc";
    assert FileName(".bashrc") == Some(".bashrc");
    assert '.' !in ".bashrc"[1..];
  }
}
