/**
 Strings as the registry reads them: splitting on a separator, the first occurrence of a marker,
 repository names, tags and digests (internal/storage/filesystem.go:851-908, 1018-1057).
 */
module Names {
  import opened Wrappers

  // ---------------------------------------------------------------- split and join

  function Split(s: string, sep: char): (parts: seq<string>)
    ensures |parts| > 0
  {
    if s == "" then [""]
    else
      var rest := Split(s[1..], sep);
      if s[0] == sep then [""] + rest else [[s[0]] + rest[0]] + rest[1..]
  }

  function Join(parts: seq<string>, sep: char): string {
    if parts == [] then ""
    else if |parts| == 1 then parts[0]
    else parts[0] + [sep] + Join(parts[1..], sep)
  }

  lemma {:induction false} JoinSplit(s: string, sep: char)
    ensures Join(Split(s, sep), sep) == s
  {
    if s != "" {
      var rest := Split(s[1..], sep);
      JoinSplit(s[1..], sep);
      var parts := Split(s, sep);
      if s[0] == sep {
        assert parts[1..] == rest;
      } else {
        assert parts[1..] == rest[1..];
        if |rest| > 1 {
          assert Join(parts, sep) == [s[0]] + rest[0] + [sep] + Join(rest[1..], sep);
        }
      }
    }
  }

  lemma {:induction false} SplitPlain(s: string, sep: char)
    requires sep !in s
    ensures Split(s, sep) == [s]
  {
    if s != "" {
      SplitPlain(s[1..], sep);
      assert [s[0]] + s[1..] == s;
    }
  }

  /** Splitting at a separator that stands between two texts splits each of them. */
  lemma {:induction false} SplitConcat(a: string, sep: char, b: string)
    ensures Split(a + [sep] + b, sep) == Split(a, sep) + Split(b, sep)
  {
    var s := a + [sep] + b;
    if a == "" {
      assert s[1..] == b;
    } else {
      assert s[1..] == a[1..] + [sep] + b;
      SplitConcat(a[1..], sep, b);
    }
  }

  lemma {:induction false} SplitJoin(parts: seq<string>, sep: char)
    requires parts != [] && forall p :: p in parts ==> sep !in p
    ensures Split(Join(parts, sep), sep) == parts
  {
    SplitPlain(parts[0], sep);
    if |parts| > 1 {
      SplitJoin(parts[1..], sep);
      SplitConcat(parts[0], sep, Join(parts[1..], sep));
    }
  }

  lemma {:induction false} SplitPartsPlain(s: string, sep: char)
    ensures forall p :: p in Split(s, sep) ==> sep !in p
  {
    if s != "" {
      SplitPartsPlain(s[1..], sep);
    }
  }

  lemma {:induction false} SplitInjective(a: string, b: string, sep: char)
    requires Split(a, sep) == Split(b, sep)
    ensures a == b
  {
    JoinSplit(a, sep);
    JoinSplit(b, sep);
  }

  // ---------------------------------------------------------------- first occurrence

  predicate OccursAt(s: string, m: string, i: nat) {
    i + |m| <= |s| && s[i..i + |m|] == m
  }

  /** strings.Index: the least position at which the marker occurs, or -1. */
  function Index(s: string, m: string): (i: int)
    ensures i >= 0 ==> OccursAt(s, m, i) && forall j: nat :: j < i ==> !OccursAt(s, m, j)
    ensures i < 0 ==> i == -1 && forall j: nat :: !OccursAt(s, m, j)
  {
    IndexFrom(s, m, 0)
  }

  function IndexFrom(s: string, m: string, k: nat): (i: int)
    requires forall j: nat :: j < k ==> !OccursAt(s, m, j)
    ensures i >= 0 ==> OccursAt(s, m, i) && forall j: nat :: j < i ==> !OccursAt(s, m, j)
    ensures i < 0 ==> i == -1 && forall j: nat :: !OccursAt(s, m, j)
    decreases |s| + 1 - k
  {
    if k + |m| > |s| then -1
    else if s[k..k + |m|] == m then k
    else IndexFrom(s, m, k + 1)
  }

  predicate Contains(s: string, m: string) {
    Index(s, m) >= 0
  }

  // ---------------------------------------------------------------- repository names

  function TrimLeft(s: string): (t: string)
    ensures t == "" || t[0] != '/'
  {
    if s != "" && s[0] == '/' then TrimLeft(s[1..]) else s
  }

  function TrimRight(s: string): (t: string)
    ensures t == "" || t[|t| - 1] != '/'
    ensures t <= s
  {
    if s != "" && s[|s| - 1] == '/' then TrimRight(s[..|s| - 1]) else s
  }

  /** strings.Trim(repository, "/") */
  function TrimSlashes(s: string): string {
    TrimRight(TrimLeft(s))
  }

  /** safeRepositoryPath: the directory of a repository, or None for a refused name. */
  function RepositoryPath(repository: string): Option<string> {
    var path := TrimSlashes(repository);
    if path == "" || Contains(path, "..") then None
    else if exists p :: p in Split(path, '/') && (p == "" || p == "." || p == "..") then None
    else Some(path)
  }

  // What is accepted, exactly, without the steps by which it is found out.

  /** The text between the slashes that are trimmed away. */
  ghost predicate Between(repository: string, path: string, i: nat) {
    && i + |path| <= |repository| && repository[i..i + |path|] == path
    && (forall k :: 0 <= k < i ==> repository[k] == '/')
    && (forall k :: i + |path| <= k < |repository| ==> repository[k] == '/')
  }

  /** No component is empty or a single dot, and no two dots stand together. */
  ghost predicate PlainPath(path: string) {
    && path != "" && path[0] != '/' && path[|path| - 1] != '/'
    && (forall k :: 0 <= k < |path| - 1 ==> !(path[k] == '.' && path[k + 1] == '.'))
    && (forall part :: part in Split(path, '/') ==> part != "" && part != ".")
  }

  lemma {:induction false} TrimLeftBetween(s: string) returns (i: nat)
    ensures i <= |s| && TrimLeft(s) == s[i..] && forall k :: 0 <= k < i ==> s[k] == '/'
  {
    if s != "" && s[0] == '/' {
      i := TrimLeftBetween(s[1..]);
      assert forall k :: 1 <= k < i + 1 ==> s[k] == s[1..][k - 1];
      i := i + 1;
    } else {
      i := 0;
    }
  }

  lemma {:induction false} TrimRightBetween(s: string)
    ensures forall k :: |TrimRight(s)| <= k < |s| ==> s[k] == '/'
  {
    if s != "" && s[|s| - 1] == '/' {
      var most := s[..|s| - 1];
      TrimRightBetween(most);
      assert forall k :: |TrimRight(s)| <= k < |most| ==> s[k] == most[k];
    }
  }

  lemma TrimmedBetween(repository: string) returns (i: nat)
    ensures Between(repository, TrimSlashes(repository), i)
  {
    i := TrimLeftBetween(repository);
    var rest := TrimLeft(repository);
    TrimRightBetween(rest);
    assert forall k :: 0 <= k < |rest| ==> repository[i + k] == rest[k];
    assert forall k :: i <= k < |repository| ==> repository[k] == rest[k - i];
  }

  /** Between slashes there is only one text that neither begins nor ends with one. */
  lemma BetweenOnce(repository: string, path: string, i: nat, other: string, j: nat)
    requires Between(repository, path, i) && Between(repository, other, j)
    requires path != "" && path[0] != '/' && path[|path| - 1] != '/'
    requires other != "" && other[0] != '/' && other[|other| - 1] != '/'
    ensures path == other
  {
    assert repository[i] == path[0] && repository[i + |path| - 1] == path[|path| - 1];
    assert repository[j] == other[0] && repository[j + |other| - 1] == other[|other| - 1];
  }

  lemma DotsStandTogether(path: string)
    ensures Contains(path, "..") <==> exists k :: 0 <= k < |path| - 1 && path[k] == '.' && path[k + 1] == '.'
  {
    if k: nat :| k < |path| - 1 && path[k] == '.' && path[k + 1] == '.' {
      assert path[k..k + 2] == "..";
      assert OccursAt(path, "..", k);
    }
    if Contains(path, "..") {
      var k := Index(path, "..");
      assert path[k] == path[k..k + 2][0] && path[k + 1] == path[k..k + 2][1];
    }
  }

  /** A name is accepted exactly if it is a plain path between slashes, and that path is its directory. */
  lemma PathsExactly(repository: string, path: string)
    ensures RepositoryPath(repository) == Some(path) <==> PlainPath(path) && exists i: nat :: Between(repository, path, i)
  {
    var i := TrimmedBetween(repository);
    var trimmed := TrimSlashes(repository);
    DotsStandTogether(trimmed);
    DotsStandTogether("..");
    if RepositoryPath(repository) == Some(path) {
      assert path[0] == TrimLeft(repository)[0];
    }
    if PlainPath(path) && exists j: nat :: Between(repository, path, j) {
      var j: nat :| Between(repository, path, j);
      TrimmedEnds(repository);
      assert repository[j] == path[0];
      assert trimmed != "";
      BetweenOnce(repository, path, j, trimmed, i);
      if ".." in Split(path, '/') {
        NoDottedPart(path);
      }
    }
  }

  lemma TrimmedEnds(repository: string)
    ensures
      var path := TrimSlashes(repository);
      path != "" ==> path[0] != '/' && path[|path| - 1] != '/'
  {
    if TrimSlashes(repository) != "" {
      assert TrimSlashes(repository)[0] == TrimLeft(repository)[0];
    }
  }

  lemma {:induction false} FirstPartInside(s: string, sep: char)
    ensures Split(s, sep)[0] <= s
  {
    if s != "" {
      FirstPartInside(s[1..], sep);
    }
  }

  lemma {:induction false} PartInside(s: string, sep: char, k: nat) returns (i: nat)
    requires k < |Split(s, sep)|
    ensures i + |Split(s, sep)[k]| <= |s| && s[i..i + |Split(s, sep)[k]|] == Split(s, sep)[k]
  {
    if k == 0 {
      FirstPartInside(s, sep);
      i := 0;
    } else {
      var part := Split(s, sep)[k];
      var j := PartInside(s[1..], sep, if s[0] == sep then k - 1 else k);
      assert Split(s[1..], sep)[if s[0] == sep then k - 1 else k] == part;
      assert s[1..][j..j + |part|] == s[j + 1..j + 1 + |part|];
      i := j + 1;
    }
  }

  /** Dots that stand together in a component stand together in the path. */
  lemma {:induction false} NoDottedPart(path: string)
    requires ".." in Split(path, '/')
    ensures exists k :: 0 <= k < |path| - 1 && path[k] == '.' && path[k + 1] == '.'
  {
    var parts := Split(path, '/');
    var k :| 0 <= k < |parts| && parts[k] == "..";
    var i := PartInside(path, '/', k);
    assert path[i..i + 2][0] == '.' && path[i..i + 2][1] == '.';
  }

  /** A name that is its own directory. */
  predicate Canonical(repository: string) {
    RepositoryPath(repository) == Some(repository)
  }

  /** Trimming is idempotent, so a directory is a name for itself. */
  lemma PathIsCanonical(repository: string)
    requires RepositoryPath(repository).Some?
    ensures Canonical(RepositoryPath(repository).value)
  {
    var path := TrimSlashes(repository);
    assert path[0] == TrimLeft(repository)[0];
    assert TrimLeft(path) == path && TrimRight(path) == path;
  }

  // ---------------------------------------------------------------- tags and digests

  predicate TagChar(c: char) {
    'A' <= c <= 'Z' || 'a' <= c <= 'z' || '0' <= c <= '9' || c == '.' || c == '_' || c == '-'
  }

  /** sanitizeReference accepts the tag. */
  predicate ValidTag(tag: string) {
    && tag != ""
    && !Contains(tag, "..")
    && forall c :: c in tag ==> TagChar(c)
  }

  /** A reference with a colon is a digest reference, any other is a tag. */
  predicate DigestReference(reference: string) {
    ':' in reference
  }

  predicate HexChar(c: char) {
    '0' <= c <= '9' || 'a' <= c <= 'f'
  }

  function HexLength(algorithm: string): nat {
    if algorithm == "sha256" then 64 else if algorithm == "sha512" then 128 else 0
  }

  /** parseDigest: the text before and after the first colon. */
  function ParseDigest(digest: string): (r: Option<(string, string)>)
    ensures r.Some? ==> digest == r.value.0 + ":" + r.value.1
  {
    var i := Index(digest, ":");
    if i <= 0 || i + 1 == |digest| then None
    else
      var algorithm, encoded := digest[..i], digest[i + 1..];
      if algorithm != "sha256" && algorithm != "sha512" then None
      else if |encoded| != HexLength(algorithm) then None
      else if exists c :: c in encoded && !HexChar(c) then None
      else Some((algorithm, encoded))
  }

  predicate ValidDigest(digest: string) {
    ParseDigest(digest).Some?
  }

  const UPPER := "ABCDEFGHIJKLMNOPQRSTUVWXYZ"
  const LOWER := "abcdefghijklmnopqrstuvwxyz"
  const DIGITS := "0123456789"
  const TAG_CHARS := UPPER + LOWER + DIGITS + "._-"
  const HEX_CHARS := DIGITS + "abcdef"

  lemma UpperCase(c: char)
    ensures 'A' <= c <= 'Z' <==> c in UPPER
  {
    assert forall k :: 0 <= k < 26 ==> UPPER[k] as int == 'A' as int + k;
    if 'A' <= c <= 'Z' { assert UPPER[c as int - 'A' as int] == c; }
  }

  lemma LowerCase(c: char)
    ensures 'a' <= c <= 'z' <==> c in LOWER
  {
    assert forall k :: 0 <= k < 26 ==> LOWER[k] as int == 'a' as int + k;
    if 'a' <= c <= 'z' { assert LOWER[c as int - 'a' as int] == c; }
  }

  lemma Digit(c: char)
    ensures '0' <= c <= '9' <==> c in DIGITS
  {
    assert forall k :: 0 <= k < 10 ==> DIGITS[k] as int == '0' as int + k;
    if '0' <= c <= '9' { assert DIGITS[c as int - '0' as int] == c; }
  }

  lemma CharsAre(c: char)
    ensures TagChar(c) <==> c in TAG_CHARS
    ensures HexChar(c) <==> c in HEX_CHARS
  {
    UpperCase(c);
    LowerCase(c);
    Digit(c);
    hide UPPER;
    hide LOWER;
    hide DIGITS;
  }

  /** A tag is any text of these characters in which no two dots stand together. */
  lemma TagsExactly(tag: string)
    ensures ValidTag(tag) <==>
            && tag != "" && (forall c :: c in tag ==> c in TAG_CHARS)
            && forall k :: 0 <= k < |tag| - 1 ==> !(tag[k] == '.' && tag[k + 1] == '.')
  {
    forall c ensures TagChar(c) <==> c in TAG_CHARS {
      CharsAre(c);
    }
    DotsStandTogether(tag);
    hide TagChar;
    hide TAG_CHARS;
  }

  /** A digest is one of two algorithms, a colon and as many hexadecimal digits as its hash has. */
  lemma DigestsExactly(digest: string, algorithm: string, encoded: string)
    ensures ParseDigest(digest) == Some((algorithm, encoded)) <==>
            && digest == algorithm + ":" + encoded
            && ((algorithm == "sha256" && |encoded| == 64) || (algorithm == "sha512" && |encoded| == 128))
            && forall c :: c in encoded ==> c in HEX_CHARS
  {
    forall c ensures HexChar(c) <==> c in HEX_CHARS {
      CharsAre(c);
    }
    hide HexChar;
    hide HEX_CHARS;
    if digest == algorithm + ":" + encoded && (algorithm == "sha256" || algorithm == "sha512") {
      assert digest[|algorithm|..|algorithm| + 1] == ":" && OccursAt(digest, ":", |algorithm|);
      forall j: nat | j < |algorithm| ensures !OccursAt(digest, ":", j) {
        assert digest[j..j + 1][0] == algorithm[j] != ':';
      }
      assert digest[..|algorithm|] == algorithm && digest[|algorithm| + 1..] == encoded;
    }
  }

  /** A tag never reads as a digest, nor a digest as a tag. */
  lemma TagsAreNotDigests(reference: string)
    ensures ValidTag(reference) ==> !DigestReference(reference)
    ensures ValidDigest(reference) ==> DigestReference(reference)
  {
    assert !TagChar(':');
    if ValidDigest(reference) {
      var i := Index(reference, ":");
      assert reference[i..i + 1] == ":";
      assert reference[i] == ':';
    }
  }
}
