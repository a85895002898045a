/**
 * The static-file middleware (src/middleware.ts) that serves compiled grammar
 * modules from the per-user cache directory. A request path is served when it
 * matches the pattern `^(\/)tree-sitter(-[a-zA-Z]+.[a-z0-9]{6})?(\.wasm)$`
 * and the file named by its last segment exists in the cache directory;
 * otherwise the middleware returns nothing and the request falls through.
 */
module Middleware {
  import opened Protocol
  import Utils

  const Prefix: string := "/tree-sitter"
  const Extension: string := ".wasm"

  predicate IsAsciiLetter(c: char) { 'a' <= c <= 'z' || 'A' <= c <= 'Z' }

  predicate IsLowerAlnum(c: char) { 'a' <= c <= 'z' || '0' <= c <= '9' }

  /** The characters a JavaScript regular-expression `.` does not match. */
  predicate IsLineTerminator(c: char)
  {
    c == '\n' || c == '\r' || c == '\U{2028}' || c == '\U{2029}'
  }

  predicate AllLetters(s: string) { forall i :: 0 <= i < |s| ==> IsAsciiLetter(s[i]) }

  predicate AllLowerAlnum(s: string) { forall i :: 0 <= i < |s| ==> IsLowerAlnum(s[i]) }

  /** The optional group `-[a-zA-Z]+.[a-z0-9]{6}`, read by position: its last seven characters are fixed by the pattern. */
  predicate IsSuffixGroup(m: string)
  {
    && |m| >= 9
    && m[0] == '-'
    && AllLetters(m[1..|m| - 7])
    && !IsLineTerminator(m[|m| - 7])
    && AllLowerAlnum(m[|m| - 6..])
  }

  /** The pattern test, as the middleware runs it on a request's pathname. */
  predicate IsWasmPath(pathname: string)
  {
    && |pathname| >= |Prefix| + |Extension|
    && pathname[..|Prefix|] == Prefix
    && pathname[|pathname| - |Extension|..] == Extension
    && var middle := pathname[|Prefix|..|pathname| - |Extension|];
       middle == [] || IsSuffixGroup(middle)
  }

  /** The pathname the pattern spells out with the group present. */
  function Spelled(letters: string, any: char, tag: string): string
  {
    Prefix + "-" + letters + [any] + tag + Extension
  }

  /** The pattern read as a grammar: `/tree-sitter.wasm`, or the group's parts in order. */
  ghost predicate PatternAccepts(pathname: string)
  {
    || pathname == Prefix + Extension
    || exists letters, any, tag ::
         && pathname == Spelled(letters, any, tag)
         && |letters| >= 1 && AllLetters(letters)
         && !IsLineTerminator(any)
         && |tag| == 6 && AllLowerAlnum(tag)
  }

  /** The positional test accepts exactly what the pattern's grammar describes. */
  lemma IsWasmPathMatchesPattern(pathname: string)
    ensures IsWasmPath(pathname) <==> PatternAccepts(pathname)
  {
    if IsWasmPath(pathname) && pathname != Prefix + Extension {
      GroupFromPath(pathname);
    }
    if PatternAccepts(pathname) && pathname != Prefix + Extension {
      var letters, any, tag :| && pathname == Spelled(letters, any, tag)
                               && |letters| >= 1 && AllLetters(letters)
                               && !IsLineTerminator(any)
                               && |tag| == 6 && AllLowerAlnum(tag);
      PathFromGroup(letters, any, tag);
    }
  }

  /** An accepted path other than `/tree-sitter.wasm` spells out the group. */
  lemma GroupFromPath(pathname: string)
    requires IsWasmPath(pathname) && pathname != Prefix + Extension
    ensures var middle := pathname[|Prefix|..|pathname| - |Extension|];
      |middle| >= 9 &&
      pathname == Spelled(middle[1..|middle| - 7], middle[|middle| - 7], middle[|middle| - 6..])
  {
    var middle := pathname[|Prefix|..|pathname| - |Extension|];
    assert pathname == Prefix + middle + Extension;
    var letters, any, tag := middle[1..|middle| - 7], middle[|middle| - 7], middle[|middle| - 6..];
    assert middle[..1] == "-";
    assert middle == middle[..1] + letters + middle[|middle| - 7..];
    assert middle[|middle| - 7..] == [any] + tag;
  }

  /** Every spelling the grammar allows passes the positional test. */
  lemma PathFromGroup(letters: string, any: char, tag: string)
    requires |letters| >= 1 && AllLetters(letters)
    requires !IsLineTerminator(any)
    requires |tag| == 6 && AllLowerAlnum(tag)
    ensures IsWasmPath(Spelled(letters, any, tag))
  {
    var pathname := Spelled(letters, any, tag);
    var middle := "-" + letters + [any] + tag;
    assert pathname == Prefix + middle + Extension;
    assert pathname[..|Prefix|] == Prefix;
    assert pathname[|pathname| - |Extension|..] == Extension;
    assert pathname[|Prefix|..|pathname| - |Extension|] == middle;
    assert middle[1..|middle| - 7] == letters;
    assert middle[|middle| - 7] == any;
    assert middle[|middle| - 6..] == tag;
  }

  /**
   * What an accepted path looks like: it is `/tree-sitter`, then `.wasm`, or it
   * carries a group whose six-character tag has no upper-case letter. Matching
   * is case-sensitive throughout.
   */
  lemma AcceptedPathShape(pathname: string)
    requires IsWasmPath(pathname)
    ensures pathname[..12] == "/tree-sitter"
    ensures pathname[|pathname| - 5..] == ".wasm"
    ensures |pathname| == 17 || (|pathname| >= 26 && pathname[12] == '-' &&
              forall i :: |pathname| - 11 <= i < |pathname| - 5 ==> !('A' <= pathname[i] <= 'Z'))
  {
    var middle := pathname[12..|pathname| - 5];
    if middle != [] {
      forall i | |pathname| - 11 <= i < |pathname| - 5
        ensures !('A' <= pathname[i] <= 'Z')
      {
        assert pathname[i] == middle[|middle| - 6..][i - (|pathname| - 11)];
      }
    }
  }

  /** The any-character slot admits `/`: a nested path passes the test and names a different file. */
  lemma NestedPathAccepted()
    ensures IsWasmPath("/tree-sitter-ab/abcdef.wasm")
    ensures ServedName("/tree-sitter-ab/abcdef.wasm") == "abcdef.wasm"
  {
    NestedPathPasses();
    NestedPathNamesInner();
  }

  lemma NestedPathPasses()
    ensures IsWasmPath("/tree-sitter-ab/abcdef.wasm")
  {
    var p := "/tree-sitter-ab/abcdef.wasm";
    assert p[..|Prefix|] == Prefix;
    assert p[|p| - |Extension|..] == Extension;
    var middle := p[|Prefix|..|p| - |Extension|];
    assert middle == "-ab/abcdef";
    assert middle[1..|middle| - 7] == "ab";
    assert middle[|middle| - 6..] == "abcdef";
  }

  lemma NestedPathNamesInner()
    ensures ServedName("/tree-sitter-ab/abcdef.wasm") == "abcdef.wasm"
  {
    var p := "/tree-sitter-ab/abcdef.wasm";
    assert p[|p| - 12..] == "/abcdef.wasm";
    Utils.SuffixGivesBaseName(p, "abcdef.wasm");
  }

  /** The file the middleware looks for: the last `/`-separated segment of the pathname. */
  function ServedName(pathname: string): (name: string)
    ensures '/' !in name
  {
    Utils.GetBaseName(pathname)
  }

  /** An accepted path always names a non-empty file ending in `.wasm`. */
  lemma AcceptedNameIsWasmFile(pathname: string)
    requires IsWasmPath(pathname)
    ensures var name := ServedName(pathname);
      |name| >= 5 && name[|name| - 5..] == ".wasm"
  {
    var name := ServedName(pathname);
    var tail := pathname[|pathname| - 5..];
    assert '/' !in tail by {
      assert tail == ".wasm";
    }
    if |name| < 5 {
      assert false;
    }
    assert name[|name| - 5..] == pathname[|pathname| - 5..];
  }

  datatype Response = Response(file: string, headers: seq<(string, string)>)

  const WasmHeaders: seq<(string, string)> := [
    ("Content-Type", "application/wasm"),
    ("Cache-Control", "no-cache, no-store, must-revalidate"),
    ("Pragma", "no-cache")
  ]

  /**
   * The middleware's request handler. `fileExists` stands for the file-system
   * check; the response body is the content of `file`. A response is produced
   * exactly for an accepted path whose file exists directly inside the cache
   * directory; it serves the file the path's last segment names, a `.wasm`
   * file, and always carries the wasm type and the no-cache headers.
   */
  function HandleRequest(pathname: string, home: string, fileExists: string -> bool): (r: Option<Response>)
    ensures r.Some? <==> IsWasmPath(pathname) && fileExists(Utils.TgDir(home) + "/" + ServedName(pathname))
    ensures r.Some? ==> r.value.headers == WasmHeaders
    ensures r.Some? ==> r.value.file == Utils.TgDir(home) + "/" + ServedName(pathname)
    ensures r.Some? ==> var name := ServedName(pathname);
      |name| >= 5 && name[|name| - 5..] == Extension
  {
    if IsWasmPath(pathname) then
      var name := ServedName(pathname);
      AcceptedNameIsWasmFile(pathname);
      if name != [] then
        var location := Utils.TgDir(home) + "/" + name;
        if fileExists(location) then Some(Response(location, WasmHeaders)) else None
      else None
    else None
  }
}
