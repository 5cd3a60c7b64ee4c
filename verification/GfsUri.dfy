/** `gfs://` addresses (src/config.rs:60-126). */
module GfsUri {
  import opened Paths

  datatype UriParseError = InvalidScheme(input: string) | EmptyAuthority(input: string)

  datatype ParsedUri = Parsed(addrs: seq<string>, root: string) | Refused(error: UriParseError)

  const SCHEME := "gfs://"

  /** Index of the first `c` in `s`, or `|s|`. */
  function IndexOf(s: string, c: char): (i: nat)
    ensures i <= |s|
    ensures c !in s[..i]
    ensures i < |s| ==> s[i] == c
  {
    if s == [] || s[0] == c then 0 else 1 + IndexOf(s[1..], c)
  }

  /** `str::split` at commas. */
  function Split(s: string): (r: seq<string>)
    ensures r != []
    decreases |s|
  {
    var i := IndexOf(s, ',');
    if i == |s| then [s] else [s[..i]] + Split(s[i + 1..])
  }

  /** The parts that are not white space, trimmed. */
  function Addresses(parts: seq<string>): seq<string> {
    if parts == [] then []
    else
      var addr := Trim(parts[0]);
      (if addr == "" then [] else [addr]) + Addresses(parts[1..])
  }

  function ParseGfsUri(uri: string): ParsedUri {
    if !(SCHEME <= uri) then Refused(InvalidScheme(uri))
    else
      var rest := uri[|SCHEME|..];
      var slash := IndexOf(rest, '/');
      var addrs := Addresses(Split(rest[..slash]));
      if addrs == [] then Refused(EmptyAuthority(uri))
      else Parsed(addrs, TrimEnd(rest[slash..], Slash))
  }

  function Join(parts: seq<string>): string {
    if parts == [] then ""
    else if |parts| == 1 then parts[0]
    else parts[0] + "," + Join(parts[1..])
  }

  /** The canonical URI of addresses and a root. */
  function Print(addrs: seq<string>, root: string): string {
    SCHEME + Join(addrs) + root
  }

  // ----- What parses give -----

  predicate Clean(addr: string) {
    && addr != "" && !IsWhitespace(addr[0]) && !IsWhitespace(addr[|addr| - 1])
    && ',' !in addr && '/' !in addr
  }

  predicate Canonical(addrs: seq<string>, root: string) {
    && addrs != [] && (forall a :: a in addrs ==> Clean(a))
    && (root != "" ==> root[0] == '/' && root[|root| - 1] != '/')
  }

  lemma {:induction false} FirstAt(s: string, c: char, i: nat)
    requires i <= |s| && c !in s[..i] && (i < |s| ==> s[i] == c)
    ensures IndexOf(s, c) == i
  {
    if i > 0 {
      assert s[0] == s[..i][0];
      assert s[1..][..i - 1] == s[..i][1..];
      FirstAt(s[1..], c, i - 1);
    }
  }

  lemma TrimMembers(s: string, c: char)
    requires c in Trim(s)
    ensures c in s
  {
    var started := TrimStart(s, Space);
    var i :| 0 <= i < |Trim(s)| && Trim(s)[i] == c;
    assert started[i] == c;
  }

  /** Parts have no commas, and no characters but those of the whole. */
  lemma {:induction false} SplitParts(s: string, part: string)
    requires part in Split(s)
    ensures ',' !in part
    ensures forall c :: c in part ==> c in s
    decreases |s|
  {
    var i := IndexOf(s, ',');
    if i == |s| {
      assert s[..i] == s;
    } else if part in Split(s[i + 1..]) {
      SplitParts(s[i + 1..], part);
    }
  }

  lemma {:induction false} AddressIsClean(parts: seq<string>, addr: string)
    requires forall p :: p in parts ==> ',' !in p && '/' !in p
    requires addr in Addresses(parts)
    ensures Clean(addr)
  {
    hide Trim, IsWhitespace;
    if addr in Addresses(parts[1..]) {
      AddressIsClean(parts[1..], addr);
    } else {
      forall c | c in addr ensures c in parts[0] {
        TrimMembers(parts[0], c);
      }
      assert parts[0] in parts;
    }
  }

  /** A successful parse gives canonical values. */
  lemma ParseIsCanonical(uri: string)
    ensures var r := ParseGfsUri(uri);
      r.Parsed? ==> Canonical(r.addrs, r.root)
  {
    hide Clean, Addresses, Split;
    var r := ParseGfsUri(uri);
    if r.Parsed? {
      var rest := uri[|SCHEME|..];
      var slash := IndexOf(rest, '/');
      var parts := Split(rest[..slash]);
      forall p | p in parts ensures ',' !in p && '/' !in p {
        SplitParts(rest[..slash], p);
      }
      forall a | a in r.addrs ensures Clean(a) {
        AddressIsClean(parts, a);
      }
      assert r.root <= rest[slash..];
    }
  }

  // ----- Printing and parsing -----

  lemma SplitFirst(first: string, others: string)
    requires ',' !in first
    ensures Split(first) == [first]
    ensures Split(first + "," + others) == [first] + Split(others)
  {
    var n := |first|;
    assert first[..n] == first;
    FirstAt(first, ',', n);
    var s := first + "," + others;
    assert s[..n] == first && s[n] == ',' && s[n + 1..] == others;
    FirstAt(s, ',', n);
  }

  lemma {:induction false} SplitJoin(parts: seq<string>)
    requires parts != [] && forall p :: p in parts ==> ',' !in p
    ensures Split(Join(parts)) == parts
  {
    hide Split;
    assert parts[0] in parts;
    SplitFirst(parts[0], Join(parts[1..]));
    if |parts| > 1 {
      SplitJoin(parts[1..]);
    }
  }

  lemma {:induction false} AddressesOfClean(addrs: seq<string>)
    requires forall a :: a in addrs ==> Clean(a)
    ensures Addresses(addrs) == addrs
  {
    hide Trim, IsWhitespace;
    if addrs != [] {
      assert addrs[0] in addrs;
      TrimOfTrimmed(addrs[0]);
      AddressesOfClean(addrs[1..]);
      assert [addrs[0]] + addrs[1..] == addrs;
    }
  }

  lemma {:induction false} JoinHasNoSlash(addrs: seq<string>)
    requires forall a :: a in addrs ==> '/' !in a
    ensures '/' !in Join(addrs)
  {
    if addrs != [] {
      assert addrs[0] in addrs;
      JoinHasNoSlash(addrs[1..]);
    }
  }

  lemma TrimmedRoot(root: string)
    requires root != "" ==> root[|root| - 1] != '/'
    ensures TrimEnd(root, Slash) == root
  {
  }

  /** The first slash is where the root begins. */
  lemma PrintedParts(authority: string, root: string)
    requires '/' !in authority && (root != "" ==> root[0] == '/')
    ensures var uri := SCHEME + authority + root;
      var rest := uri[|SCHEME|..];
      var slash := IndexOf(rest, '/');
      SCHEME <= uri && rest[..slash] == authority && rest[slash..] == root
  {
    var uri := SCHEME + authority + root;
    var rest := uri[|SCHEME|..];
    assert rest == authority + root;
    assert rest[..|authority|] == authority;
    FirstAt(rest, '/', |authority|);
  }

  lemma CanonicalParses(addrs: seq<string>, root: string)
    requires Canonical(addrs, root)
    ensures ParseGfsUri(Print(addrs, root)) == Parsed(addrs, root)
  {
    JoinHasNoSlash(addrs);
    PrintedParts(Join(addrs), root);
    hide IndexOf, Join, IsWhitespace;
    SplitJoin(addrs);
    AddressesOfClean(addrs);
    TrimmedRoot(root);
    hide Clean, Addresses, Split, TrimEnd;
  }

  /** Printed and parsed again, addresses and root are what they were, exactly if they are canonical. */
  lemma RoundTripExactly(addrs: seq<string>, root: string)
    ensures ParseGfsUri(Print(addrs, root)) == Parsed(addrs, root) <==> Canonical(addrs, root)
  {
    hide ParseGfsUri, Print, Canonical;
    ParseIsCanonical(Print(addrs, root));
    if Canonical(addrs, root) {
      CanonicalParses(addrs, root);
    }
  }

  /** Printing the result of a parse and parsing again gives the same result. */
  lemma ParsePrintParse(uri: string)
    ensures var r := ParseGfsUri(uri);
      r.Parsed? ==> ParseGfsUri(Print(r.addrs, r.root)) == r
  {
    hide ParseGfsUri, Print;
    var r := ParseGfsUri(uri);
    if r.Parsed? {
      ParseIsCanonical(uri);
      RoundTripExactly(r.addrs, r.root);
    }
  }

  // ----- What is refused -----

  predicate Blank(s: string) {
    forall c :: c in s ==> IsWhitespace(c)
  }

  lemma TrimsToNothing(s: string)
    ensures Trim(s) == "" <==> Blank(s)
  {
    var started := TrimStart(s, Space);
    if started != "" {
      assert started[0] in s;
      assert started[0] == s[|s| - |started|];
    }
  }

  ghost predicate AllBlank(parts: seq<string>) {
    forall p :: p in parts ==> Blank(p)
  }

  ghost predicate BlankList(s: string) {
    forall c :: c in s ==> c == ',' || IsWhitespace(c)
  }

  lemma {:induction false} NoAddresses(parts: seq<string>)
    ensures Addresses(parts) == [] <==> AllBlank(parts)
  {
    hide Trim, Blank;
    if parts != [] {
      TrimsToNothing(parts[0]);
      NoAddresses(parts[1..]);
      assert parts == [parts[0]] + parts[1..];
    }
  }

  lemma BlankFirst(first: string, others: string)
    requires ',' !in first
    ensures BlankList(first) <==> Blank(first)
    ensures BlankList(first + "," + others) <==> Blank(first) && BlankList(others)
  {
    hide IsWhitespace;
    var s := first + "," + others;
    assert forall c :: c in s <==> c in first || c == ',' || c in others;
  }

  lemma {:induction false} BlankParts(s: string)
    ensures AllBlank(Split(s)) <==> BlankList(s)
    decreases |s|
  {
    hide BlankList, Blank;
    var i := IndexOf(s, ',');
    if i == |s| {
      assert s[..i] == s;
      BlankFirst(s, "");
    } else {
      var first, others := s[..i], s[i + 1..];
      BlankParts(others);
      BlankFirst(first, others);
      assert s == first + "," + others;
    }
  }

  /** The authority: what is between the scheme and the first slash. */
  function Authority(uri: string): string {
    if SCHEME <= uri then
      var rest := uri[|SCHEME|..];
      rest[..IndexOf(rest, '/')]
    else ""
  }

  /** A URI with the scheme is refused exactly if its authority is nothing but commas and white space. */
  lemma RefusedExactly(uri: string)
    ensures ParseGfsUri(uri) == Refused(InvalidScheme(uri)) <==> !("gfs://" <= uri)
    ensures ParseGfsUri(uri) == Refused(EmptyAuthority(uri)) <==> "gfs://" <= uri && BlankList(Authority(uri))
  {
    hide IsWhitespace, Addresses, Split, AllBlank, BlankList;
    if SCHEME <= uri {
      NoAddresses(Split(Authority(uri)));
      BlankParts(Authority(uri));
    }
  }

  // ----- What is parsed -----

  /** `part` is the address with white space around it. */
  ghost predicate IsPadded(part: string, addr: string) {
    exists pre, post :: AllOf(pre, Space) && AllOf(post, Space) && part == pre + addr + post
  }

  /** The parts are the addresses, with white space around them and blank parts in between. */
  ghost predicate Padded(parts: seq<string>, addrs: seq<string>)
    decreases |parts|
  {
    if parts == [] then addrs == []
    else if AllOf(parts[0], Space) then Padded(parts[1..], addrs)
    else addrs != [] && Clean(addrs[0]) && IsPadded(parts[0], addrs[0]) && Padded(parts[1..], addrs[1..])
  }

  lemma TrimPart(part: string, addr: string)
    requires Clean(addr) && IsPadded(part, addr)
    ensures Trim(part) == addr
  {
    hide IsWhitespace, Trim;
    var pre, post :| AllOf(pre, Space) && AllOf(post, Space) && part == pre + addr + post;
    TrimOf(pre, addr, post);
  }

  lemma TrimBlank(part: string)
    requires AllOf(part, Space)
    ensures Trim(part) == ""
  {
    hide IsWhitespace, Trim;
    TrimOf(part, "", "");
    assert part + "" + "" == part;
  }

  lemma {:induction false} AddressesOfPadded(parts: seq<string>, addrs: seq<string>)
    requires Padded(parts, addrs)
    ensures Addresses(parts) == addrs
    decreases |parts|
  {
    hide Trim, IsWhitespace, IsPadded;
    if parts != [] {
      if AllOf(parts[0], Space) {
        TrimBlank(parts[0]);
        hide AllOf, Clean;
        AddressesOfPadded(parts[1..], addrs);
      } else {
        TrimPart(parts[0], addrs[0]);
        assert addrs[0] != "";
        hide AllOf, Clean;
        AddressesOfPadded(parts[1..], addrs[1..]);
        assert [addrs[0]] + addrs[1..] == addrs;
      }
    }
  }

  /** A URI of padded addresses, a root and slashes at the end parses to the addresses and the root. */
  lemma ParseExactly(parts: seq<string>, addrs: seq<string>, root: string, slashes: string)
    requires parts != [] && (forall p :: p in parts ==> ',' !in p && '/' !in p)
    requires Padded(parts, addrs) && addrs != [] && AllOf(slashes, Slash)
    requires root != "" ==> root[0] == '/' && root[|root| - 1] != '/'
    ensures ParseGfsUri("gfs://" + Join(parts) + (root + slashes)) == Parsed(addrs, root)
  {
    JoinHasNoSlash(parts);
    PrintedParts(Join(parts), root + slashes);
    hide IndexOf, Join, IsWhitespace;
    SplitJoin(parts);
    AddressesOfPadded(parts, addrs);
    TrimEndOf(root, slashes, Slash);
    hide Padded, Addresses, Split, TrimEnd;
  }
}
