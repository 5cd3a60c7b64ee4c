/** Path normalization and parents, as used for the keys of the metadata cache
    (src/metadata_cache.rs), on top of the two `trim` operations of Rust strings. */
module Paths {
  import opened Types

  /** Rust's `char::is_whitespace`: the Unicode `White_Space` property. */
  predicate IsWhitespace(c: char) {
    || '\U{0009}' <= c <= '\U{000D}'
    || c == ' ' || c == '\U{0085}' || c == '\U{00A0}' || c == '\U{1680}'
    || '\U{2000}' <= c <= '\U{200A}'
    || c == '\U{2028}' || c == '\U{2029}' || c == '\U{202F}' || c == '\U{205F}' || c == '\U{3000}'
  }

  /** The 25 code points with that property. */
  const WHITE_SPACE: set<int> := {
    9, 10, 11, 12, 13, 32, 133, 160, 5760, 8192, 8193, 8194, 8195, 8196, 8197, 8198, 8199, 8200, 8201, 8202,
    8232, 8233, 8239, 8287, 12288
  }

  lemma WhiteSpace(c: char)
    ensures IsWhitespace(c) <==> c as int in WHITE_SPACE
  {
  }

  /** The two classes of characters that are trimmed. */
  datatype CharClass = Space | Slash {
    predicate Has(c: char) {
      match this
      case Space => IsWhitespace(c)
      case Slash => c == '/'
    }
  }

  /** The longest prefix of `s` that does not end in a character of class `p`. */
  function TrimEnd(s: string, p: CharClass): (r: string)
    ensures r <= s
    ensures r != [] ==> !p.Has(r[|r| - 1])
    ensures forall i :: |r| <= i < |s| ==> p.Has(s[i])
  {
    if s != [] && p.Has(s[|s| - 1]) then TrimEnd(s[..|s| - 1], p) else s
  }

  function TrimStart(s: string, p: CharClass): (r: string)
    ensures |r| <= |s| && r == s[|s| - |r|..]
    ensures r != [] ==> !p.Has(r[0])
    ensures forall i :: 0 <= i < |s| - |r| ==> p.Has(s[i])
  {
    if s != [] && p.Has(s[0]) then TrimStart(s[1..], p) else s
  }

  /** `str::trim`. */
  function Trim(s: string): (r: string)
    ensures r != [] ==> !IsWhitespace(r[0]) && !IsWhitespace(r[|r| - 1])
    ensures |r| <= |s|
    ensures s != [] && !IsWhitespace(s[0]) ==> r != [] && r <= s
  {
    TrimEnd(TrimStart(s, Space), Space)
  }

  lemma TrimOfTrimmed(s: string)
    requires s != [] ==> !IsWhitespace(s[0]) && !IsWhitespace(s[|s| - 1])
    ensures Trim(s) == s
  {
  }

  /** What is left of `path` after both trims: white space outside, then trailing slashes. */
  function Stripped(path: string): string {
    TrimEnd(Trim(path), Slash)
  }

  lemma StrippedEnd(path: string)
    ensures Stripped(path) != "" ==> Stripped(path)[|Stripped(path)| - 1] != '/'
  {
    hide Trim, IsWhitespace;
  }

  function NormalizePath(path: string): (r: string)
    ensures r != [] && r[0] == '/'
    ensures r == "/" || r[|r| - 1] != '/'
    ensures |r| <= |path| + 1
  {
    var trimmed := Trim(path);
    if trimmed == "" || trimmed == "/" then "/"
    else
      var stripped := TrimEnd(trimmed, Slash);
      if stripped == "" then "/"
      else if stripped[0] == '/' then stripped
      else "/" + stripped
  }

  /** Index of the last slash of `s`. */
  function LastSlash(s: string): (i: nat)
    requires s != [] && s[0] == '/'
    ensures i < |s| && s[i] == '/'
    ensures forall j :: i < j < |s| ==> s[j] != '/'
  {
    if s[|s| - 1] == '/' then |s| - 1 else LastSlash(s[..|s| - 1])
  }

  function ParentPath(path: string): (r: Option<string>) {
    var normalized := NormalizePath(path);
    if normalized == "/" then None
    else
      var lastSlash := LastSlash(normalized);
      if lastSlash == 0 then Some("/") else Some(normalized[..lastSlash])
  }

  /** A path that already starts with a slash does not grow, and loses its trailing white space. */
  lemma NormalizeDoesNotGrow(path: string)
    requires path != [] && path[0] == '/'
    ensures |NormalizePath(path)| <= |Trim(path)| <= |path|
  {
    var t := Trim(path);
    assert t[0] == '/';
    var s := TrimEnd(t, Slash);
    assert s <= t;
    assert s != [] ==> s[0] == '/';
  }

  /** A path in key form is a fixed point exactly when it does not end in white space. */
  lemma NormalizeFixpoint(k: string)
    requires k != [] && k[0] == '/'
    requires k == "/" || k[|k| - 1] != '/'
    ensures NormalizePath(k) == k <==> !IsWhitespace(k[|k| - 1])
  {
    if IsWhitespace(k[|k| - 1]) {
      NormalizeDoesNotGrow(k);
      assert |Trim(k)| < |k|;
    } else {
      TrimOfTrimmed(k);
      assert TrimEnd(k, Slash) == if k == "/" then "" else k;
    }
  }

  lemma AllSlashes(t: string)
    requires forall i :: 0 <= i < |t| ==> t[i] == '/'
    ensures TrimEnd(t, Slash) == ""
  {
  }

  /** A stripped path with the leading slash that a key has. */
  function WithLeadingSlash(s: string): (k: string)
    requires s != "" ==> s[|s| - 1] != '/'
    ensures k != [] && k[0] == '/' && (k == "/" || k[|k| - 1] != '/')
    ensures s != "" ==> k[|k| - 1] == s[|s| - 1]
  {
    if s == "" then "/" else if s[0] == '/' then s else "/" + s
  }

  lemma NormalizeOfStripped(path: string)
    ensures NormalizePath(path) == WithLeadingSlash(Stripped(path))
  {
    hide Trim, TrimEnd;
    var t := Trim(path);
    if t == "" || t == "/" {
      AllSlashes(t);
    }
  }

  /** Normalization is idempotent exactly when stripping the trailing slashes does not
      uncover white space, as it does for "/a /". */
  lemma NormalizeIdempotent(path: string)
    ensures NormalizePath(NormalizePath(path)) == NormalizePath(path)
       <==> (Stripped(path) == "" || !IsWhitespace(Stripped(path)[|Stripped(path)| - 1]))
  {
    NormalizeOfStripped(path);
    StrippedEnd(path);
    hide NormalizePath, Stripped;
    KeyOfStrippedFixpoint(Stripped(path), NormalizePath(path));
  }

  /** At "/a /" it fails: the first normalization cuts the slash, the second the blank. */
  lemma NormalizeNotIdempotent()
    ensures NormalizePath("/a /") == "/a " && NormalizePath("/a ") == "/a"
  {
    TrimOfTrimmed("/a /");
    TrimsBlank("/a");
    assert "/a" + " " == "/a ";
    hide Trim, IsWhitespace;
    assert TrimEnd("/a /", Slash) == "/a ";
    assert TrimEnd("/a", Slash) == "/a";
  }

  lemma TrimsBlank(s: string)
    requires s != "" && !IsWhitespace(s[0]) && !IsWhitespace(s[|s| - 1])
    ensures Trim(s + " ") == s
  {
    assert IsWhitespace(' ');
    hide IsWhitespace;
    assert (s + " ")[..|s|] == s;
  }

  lemma KeyOfStrippedFixpoint(s: string, k: string)
    requires s != "" ==> s[|s| - 1] != '/'
    requires k == WithLeadingSlash(s)
    ensures NormalizePath(k) == k <==> (s == "" || !IsWhitespace(s[|s| - 1]))
  {
    NormalizeFixpoint(k);
  }

  /** White-space-free paths, the ones the client is used with, always qualify. */
  lemma NormalizeIdempotentWithoutSpaces(path: string)
    requires forall i :: 0 <= i < |path| ==> !IsWhitespace(path[i])
    ensures NormalizePath(NormalizePath(path)) == NormalizePath(path)
  {
    NormalizeIdempotent(path);
    var t := TrimStart(path, Space);
    assert Trim(path) <= t;
    assert Stripped(path) <= t;
  }

  /** The parent is strictly shorter than the normalized path, whatever the path. */
  lemma ParentShorter(path: string)
    ensures ParentPath(path).None? <==> NormalizePath(path) == "/"
    ensures ParentPath(path).Some? ==>
      |NormalizePath(ParentPath(path).value)| <= |ParentPath(path).value| < |NormalizePath(path)|
  {
    if ParentPath(path).Some? {
      NormalizeDoesNotGrow(ParentPath(path).value);
    }
  }

  // ----- What the functions do, in terms of concatenation -----

  predicate AllOf(s: string, p: CharClass) {
    forall i :: 0 <= i < |s| ==> p.Has(s[i])
  }

  lemma {:induction false} TrimEndOf(core: string, tail: string, p: CharClass)
    requires AllOf(tail, p) && (core != "" ==> !p.Has(core[|core| - 1]))
    ensures TrimEnd(core + tail, p) == core
    decreases |tail|
  {
    hide IsWhitespace;
    if tail == "" {
      assert core + tail == core;
    } else {
      var n := |tail| - 1;
      TrimEndOf(core, tail[..n], p);
      assert (core + tail)[..|core + tail| - 1] == core + tail[..n];
    }
  }

  lemma {:induction false} TrimStartOf(head: string, core: string, p: CharClass)
    requires AllOf(head, p) && (core != "" ==> !p.Has(core[0]))
    ensures TrimStart(head + core, p) == core
    decreases |head|
  {
    TrimStartStep(head + core, p);
    hide IsWhitespace, TrimStart;
    if head == "" {
      assert head + core == core;
    } else {
      TrimStartOf(head[1..], core, p);
      assert (head + core)[1..] == head[1..] + core;
    }
  }

  lemma TrimStartStep(s: string, p: CharClass)
    ensures TrimStart(s, p) == if s != [] && p.Has(s[0]) then TrimStart(s[1..], p) else s
  {
    hide IsWhitespace;
  }

  predicate Bare(s: string) {
    s != "" ==> !IsWhitespace(s[0]) && !IsWhitespace(s[|s| - 1])
  }

  /** Trimming cuts white space at both ends, and nothing else. */
  lemma TrimOf(pre: string, core: string, post: string)
    requires AllOf(pre, Space) && AllOf(post, Space) && Bare(core)
    ensures Trim(pre + core + post) == core
  {
    hide IsWhitespace, TrimStart, TrimEnd;
    if core == "" {
      TrimStartOf(pre + post, "", Space);
      assert pre + post + "" == pre + core + post;
      TrimEndOf("", "", Space);
      assert "" + "" == "";
    } else {
      TrimStartOf(pre, core + post, Space);
      assert pre + (core + post) == pre + core + post;
      TrimEndOf(core, post, Space);
    }
  }

  /** The key of a path: white space outside is cut, then slashes at the end, and a slash is put in
      front if there is none. */
  lemma NormalizeExactly(pre: string, body: string, slashes: string, post: string)
    requires AllOf(pre, Space) && AllOf(post, Space) && AllOf(slashes, Slash) && Bare(body + slashes)
    requires body != "" ==> body[|body| - 1] != '/'
    ensures NormalizePath(pre + (body + slashes) + post)
         == if body == "" then "/" else if body[0] == '/' then body else "/" + body
  {
    hide IsWhitespace, Trim, TrimEnd;
    TrimOf(pre, body + slashes, post);
    TrimEndOf(body, slashes, Slash);
  }

  lemma CutEnd(s: string, p: CharClass) returns (core: string, tail: string)
    ensures s == core + tail && core == TrimEnd(s, p)
    ensures AllOf(tail, p) && (core != "" ==> !p.Has(core[|core| - 1]))
  {
    hide IsWhitespace, TrimEnd;
    core := TrimEnd(s, p);
    tail := s[|core|..];
  }

  lemma CutStart(s: string, p: CharClass) returns (head: string, core: string)
    ensures s == head + core
    ensures AllOf(head, p) && (core != "" ==> !p.Has(core[0]))
  {
    hide IsWhitespace, TrimStart;
    core := TrimStart(s, p);
    head := s[..|s| - |core|];
  }

  /** Every path is of that form. */
  lemma EveryPathIs(path: string) returns (pre: string, body: string, slashes: string, post: string)
    ensures path == pre + (body + slashes) + post
    ensures AllOf(pre, Space) && AllOf(post, Space) && AllOf(slashes, Slash) && Bare(body + slashes)
    ensures body != "" ==> body[|body| - 1] != '/'
  {
    hide IsWhitespace, AllOf;
    var started, core;
    pre, started := CutStart(path, Space);
    core, post := CutEnd(started, Space);
    body, slashes := CutEnd(core, Slash);
    assert core != "" ==> core[0] == started[0];
    assert pre + (core + post) == pre + core + post;
  }

  lemma {:induction false} LastSlashAt(s: string, i: nat)
    requires s != [] && s[0] == '/' && i < |s| && s[i] == '/' && '/' !in s[i + 1..]
    ensures LastSlash(s) == i
  {
    var n := |s| - 1;
    if i < n {
      assert s[n] == s[i + 1..][n - i - 1];
      forall j | i < j < n ensures s[..n][j] != '/' {
        assert s[j] == s[i + 1..][j - i - 1];
      }
      LastSlashAt(s[..n], i);
    }
  }

  /** The parent of a key is what precedes its last name, or the root. */
  lemma ParentExactly(path: string, dir: string, name: string)
    requires NormalizePath(path) == dir + "/" + name && name != "" && '/' !in name
    ensures ParentPath(path) == Some(if dir == "" then "/" else dir)
  {
    var k := NormalizePath(path);
    hide NormalizePath;
    assert k[|dir| + 1..] == name && k[..|dir|] == dir;
    LastSlashAt(k, |dir|);
    hide LastSlash;
  }

  /** The cache keys of the parents of `path`, from the nearest one up. */
  function Ancestors(path: string): seq<string>
    decreases |NormalizePath(path)|
  {
    match ParentPath(path)
    case None => []
    case Some(p) =>
      assert |NormalizePath(p)| < |NormalizePath(path)| by { ParentShorter(path); }
      [NormalizePath(p)] + Ancestors(p)
  }

  /** `chain` continues the key `k` by ever shorter keys down to the root "/", and stops there. */
  predicate DescendsToRoot(k: string, chain: seq<string>)
    decreases |chain|
  {
    if chain == [] then k == "/" else |chain[0]| < |k| && DescendsToRoot(chain[0], chain[1..])
  }

  /** Following parents shortens the key at every step and ends at the root "/". */
  lemma {:induction false} AncestorsReachRoot(path: string)
    ensures DescendsToRoot(NormalizePath(path), Ancestors(path))
    decreases |NormalizePath(path)|
  {
    ParentShorter(path);
    var parent := ParentPath(path);
    if parent.Some? {
      AncestorsReachRoot(parent.value);
      assert Ancestors(path)[1..] == Ancestors(parent.value);
    }
  }
}
