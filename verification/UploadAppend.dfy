/**
 One chunk of an upload: the Content-Range check and the bounded append (internal/httpserver/server.go:1170-1240;
 OCI Distribution Specification v1.1, section "Pushing a blob in chunks").
 */
module UploadAppend {
  import opened Wrappers
  import opened Names

  const MAX_INT64: int := 0x7FFF_FFFF_FFFF_FFFF

  /** Two's complement wrap-around of a 64-bit sum. */
  function Wrap64(n: int): int {
    (n + 0x8000_0000_0000_0000) % 0x1_0000_0000_0000_0000 - 0x8000_0000_0000_0000
  }

  // ---------------------------------------------------------------- decimal numbers

  predicate IsDigit(c: char) {
    '0' <= c <= '9'
  }

  function Value(s: string): nat
    requires forall c :: c in s ==> IsDigit(c)
  {
    if s == "" then 0
    else
      var last := s[|s| - 1];
      assert last in s && IsDigit(last);
      10 * Value(s[..|s| - 1]) + (last - '0') as nat
  }

  /** strconv.ParseInt with base 10 and 64 bits: an optional sign, then digits, in range. */
  function ParseInt(s: string): Option<int> {
    var signed := s != "" && (s[0] == '+' || s[0] == '-');
    var digits := if signed then s[1..] else s;
    if digits == "" || exists c :: c in digits && !IsDigit(c) then None
    else
      var n: int := if signed && s[0] == '-' then -(Value(digits) as int) else Value(digits);
      if -MAX_INT64 - 1 <= n <= MAX_INT64 then Some(n) else None
  }

  /** The decimal form Go prints. */
  function Decimal(n: nat): (s: string)
    ensures s != "" && forall c :: c in s ==> IsDigit(c)
  {
    var last := [(n % 10) as char + '0'];
    if n < 10 then last else Decimal(n / 10) + last
  }

  lemma {:induction false} ValueOfDecimal(n: nat)
    ensures Value(Decimal(n)) == n
  {
    var s := Decimal(n);
    if n < 10 {
      assert s[..|s| - 1] == "";
    } else {
      ValueOfDecimal(n / 10);
      assert s[..|s| - 1] == Decimal(n / 10);
    }
  }

  lemma {:induction false} ParseDecimal(n: nat)
    ensures ParseInt(Decimal(n)) == if n <= MAX_INT64 then Some(n) else None
  {
    ValueOfDecimal(n);
    assert IsDigit(Decimal(n)[0]);
  }

  /** A number as strconv reads it: digits of this value with at most a sign before them. */
  ghost predicate Numeral(text: string, n: int) {
    exists digits :: digits != "" && (forall c :: c in digits ==> IsDigit(c))
      && ((n == Value(digits) && (text == digits || text == "+" + digits)) || (n == -(Value(digits) as int) && text == "-" + digits))
  }

  /** The integers that are read are those in range that are written as numbers. */
  lemma IntegersExactly(text: string, n: int)
    ensures ParseInt(text) == Some(n) <==> Numeral(text, n) && -0x8000_0000_0000_0000 <= n <= 0x7FFF_FFFF_FFFF_FFFF
  {
    if ParseInt(text) == Some(n) {
      var digits := if text[0] == '+' || text[0] == '-' then text[1..] else text;
      assert text == [text[0]] + text[1..];
      assert forall c :: c in digits ==> IsDigit(c);
    }
    if Numeral(text, n) {
      var digits :| digits != "" && (forall c :: c in digits ==> IsDigit(c))
        && ((n == Value(digits) && (text == digits || text == "+" + digits)) || (n == -(Value(digits) as int) && text == "-" + digits));
      assert IsDigit(digits[0]);
      assert ("+" + digits)[1..] == digits && ("-" + digits)[1..] == digits;
    }
  }

  // ---------------------------------------------------------------- Content-Range

  /** strings.Cut at the first "-". */
  function CutDash(raw: string): Option<(string, string)> {
    var at := Index(raw, "-");
    if at < 0 then None else Some((raw[..at], raw[at + 1..]))
  }

  /** The range a header declares, when it is one. */
  function DeclaredRange(raw: string): Option<(nat, nat)> {
    match CutDash(raw)
    case None => None
    case Some((start, end)) =>
      if start == "" || end == "" then None
      else
        match (ParseInt(start), ParseInt(end))
        case (Some(a), Some(b)) => if 0 <= a <= b then Some((a, b)) else None
        case _ => None
  }

  /** validateContentRange: the chunk may be appended at the current size. */
  predicate ValidRange(raw: string, currentSize: nat) {
    raw == "" || (DeclaredRange(raw).Some? && DeclaredRange(raw).value.0 == currentSize)
  }

  /** The header a client sends for the bytes from `start` to `end`, both included. */
  function ContentRange(start: nat, end: nat): string {
    Decimal(start) + "-" + Decimal(end)
  }

  lemma DeclaredContentRange(start: nat, end: nat)
    ensures DeclaredRange(ContentRange(start, end)) ==
            if start <= end <= MAX_INT64 then Some((start, end)) else None
  {
    var raw := ContentRange(start, end);
    var at := |Decimal(start)|;
    assert OccursAt(raw, "-", at);
    forall j: nat | j < at ensures !OccursAt(raw, "-", j) {
      assert raw[j] == Decimal(start)[j] && IsDigit(raw[j]);
      assert raw[j..j + 1] == [raw[j]];
    }
    assert Index(raw, "-") == at;
    assert raw[..at] == Decimal(start) && raw[at + 1..] == Decimal(end);
    ParseDecimal(start);
    ParseDecimal(end);
  }

  /** A chunk with a well-formed range is accepted exactly when it starts where the session ends. */
  lemma RangeAcceptedInOrder(start: nat, end: nat, currentSize: nat)
    requires start <= end <= MAX_INT64
    ensures ValidRange(ContentRange(start, end), currentSize) <==> start == currentSize
  {
    DeclaredContentRange(start, end);
  }

  /**
   Whatever the header says, the chunk is accepted exactly if there is none, or it is two numbers in order around the
   first dash, the former of which is the current size.
   */
  lemma RangeAcceptedExactly(raw: string, currentSize: nat)
    ensures ValidRange(raw, currentSize) <==>
            || raw == ""
            || exists start: string, end: string, last: int ::
                 && raw == start + "-" + end && '-' !in start && Numeral(start, currentSize) && Numeral(end, last)
                 && currentSize <= last <= 0x7FFF_FFFF_FFFF_FFFF
  {
    hide ParseInt;
    hide Numeral;
    if ValidRange(raw, currentSize) && raw != "" {
      var at := Index(raw, "-");
      var start, end := raw[..at], raw[at + 1..];
      assert raw[at..at + 1] == "-" && raw == start + "-" + end;
      forall k | 0 <= k < |start| ensures start[k] != '-' {
        assert raw[k..k + 1] == [raw[k]] && !OccursAt(raw, "-", k);
      }
      IntegersExactly(start, currentSize);
      IntegersExactly(end, ParseInt(end).value);
    }
    if start: string, end: string, last: int :|
      raw == start + "-" + end && '-' !in start && Numeral(start, currentSize) && Numeral(end, last)
      && currentSize <= last <= 0x7FFF_FFFF_FFFF_FFFF
    {
      IntegersExactly(start, currentSize);
      IntegersExactly(end, last);
      NumeralsAreTexts(start, currentSize);
      NumeralsAreTexts(end, last);
      assert raw[|start|..|start| + 1] == "-" && OccursAt(raw, "-", |start|);
      forall j: nat | j < |start| ensures !OccursAt(raw, "-", j) {
        assert raw[j..j + 1][0] == start[j];
      }
      assert raw[..|start|] == start && raw[|start| + 1..] == end;
    }
  }

  lemma NumeralsAreTexts(text: string, n: int)
    requires Numeral(text, n)
    ensures text != ""
  {
  }

  /** uploadRange: the Range header that tells the client how much has arrived. */
  function UploadRange(size: nat): string {
    if size == 0 then "0-0" else "0-" + Decimal(size - 1)
  }

  /** The client may resume after the end the header names exactly when anything has arrived at all. */
  lemma RangeTellsWhereToResume(size: nat)
    requires size <= MAX_INT64
    ensures DeclaredRange(UploadRange(size)).Some?
    ensures DeclaredRange(UploadRange(size)).value.1 + 1 == size <==> size > 0
  {
    var end := if size == 0 then 0 else size - 1;
    DeclaredContentRange(0, end);
    UploadRangeText(size);
    hide DeclaredRange;
    hide UploadRange;
    hide ContentRange;
  }

  lemma UploadRangeText(size: nat)
    ensures UploadRange(size) == ContentRange(0, if size == 0 then 0 else size - 1)
  {
    assert Decimal(0) == "0" && "0" + "-" == "0-";
  }

  // ---------------------------------------------------------------- append

  datatype Appended = Done(size: nat) | TooLarge | Failed

  function Min(a: int, b: int): int {
    if a < b then a else b
  }

  /** How many bytes io.LimitReader lets through when there is room for `room` of them. */
  function Limit(room: nat): nat {
    if Wrap64(room + 1) < 0 then 0 else Wrap64(room + 1)
  }

  /** Everything an append of `body` to a session holding `before` can end in, whichever call fails. */
  ghost predicate AppendOutcome(before: Bytes, body: Bytes, max: nat, after: Bytes, r: Appended) {
    if |before| > max then after == before && !r.Done?
    else
      var room: nat := max - |before|;
      match r
      case Done(size) =>
        var k := Min(|body|, Limit(room));
        k <= room && after == before + body[..k] && size == |after|
      case TooLarge => after == before && |body| >= Limit(room) > room
      case Failed => exists k: nat :: k <= |body| && k <= Limit(room) && after == before + body[..k]
  }

  class UploadFile {
    var content: Bytes

    constructor (content: Bytes)
      ensures this.content == content
    {
      this.content := content;
    }
  }

  datatype Read = More(chunk: Bytes) | Eof | ReadError

  /** A request body: the connection may end it early at any point. */
  class Body {
    const data: Bytes
    var position: nat

    constructor (data: Bytes)
      ensures this.data == data && position == 0
    {
      this.data, position := data, 0;
    }

    /** One read of at most `most` bytes. */
    method Read(most: nat) returns (r: Read)
      requires position <= |data| && most > 0
      modifies this
      ensures position <= |data|
      ensures r.More? ==> 0 < |r.chunk| <= most && position == old(position) + |r.chunk|
                          && r.chunk == data[old(position)..position]
      ensures !r.More? ==> position == old(position)
      ensures r.Eof? ==> position == |data|
    {
      var breaks: bool := *;
      if breaks {
        return ReadError;
      }
      if position == |data| {
        return Eof;
      }
      var n: nat :| 0 < n <= most && position + n <= |data|;
      r := More(data[position..position + n]);
      position := position + n;
    }
  }

  /** io.Copy from a limited reader: copies until the limit, the end of the body or a failure. */
  method CopyLimited(file: UploadFile, body: Body, limit: nat) returns (written: nat, ok: bool)
    requires body.position == 0
    modifies file, body
    ensures written <= limit && written <= |body.data|
    ensures file.content == old(file.content) + body.data[..written]
    ensures ok ==> written == Min(|body.data|, limit)
  {
    written := 0;
    while written < limit
      invariant written <= limit && written == body.position <= |body.data|
      invariant file.content == old(file.content) + body.data[..written]
    {
      var r := body.Read(limit - written);
      match r {
        case ReadError =>
          return written, false;
        case Eof =>
          return written, true;
        case More(chunk) =>
          var stored: nat :| stored <= |chunk|;
          file.content := file.content + chunk[..stored];
          if stored < |chunk| {
            return written + stored, false;
          }
          written := written + |chunk|;
      }
    }
    ok := true;
  }

  /** appendUpload: the caller holds the lock of the session and has just read its size. */
  method AppendUpload(file: UploadFile, body: Body, originalSize: nat, maxSize: nat) returns (r: Appended)
    requires originalSize == |file.content| <= MAX_INT64 && maxSize <= MAX_INT64 && body.position == 0
    modifies file, body
    ensures AppendOutcome(old(file.content), body.data, maxSize, file.content, r)
  {
    ghost var before := file.content;
    var opens, truncates, stats: bool := *, *, *;
    if !opens {
      assert before + body.data[..0] == before;
      return Failed;
    }
    var remaining := maxSize - originalSize;
    if remaining < 0 {
      return TooLarge;
    }
    var limit := Limit(remaining);
    var written, ok := CopyLimited(file, body, limit);
    if !ok {
      return Failed;
    }
    if written > remaining {
      if !truncates {
        return Failed;
      }
      file.content := file.content[..originalSize];
      return TooLarge;
    }
    if !stats {
      return Failed;
    }
    r := Done(|file.content|);
  }

  // ---------------------------------------------------------------- what every append keeps

  /** The one case in which remaining+1 wraps to a negative number, so that nothing is read at all. */
  lemma LimitIsOneMoreThanRoom(room: nat)
    requires room <= MAX_INT64
    ensures Limit(room) == if room == MAX_INT64 then 0 else room + 1
  {
  }

  /**
   Whatever read or truncation fails: a session never outgrows the limit by more than one byte, one that was
   appended to successfully is within it, and one refused as too large is as it was.
   */
  lemma AppendKeepsBounds(before: Bytes, body: Bytes, max: nat, after: Bytes, r: Appended)
    requires max <= MAX_INT64 && |before| <= max + 1 && AppendOutcome(before, body, max, after, r)
    ensures |after| <= max + 1
    ensures r.Done? ==> |after| <= max
    ensures r.TooLarge? ==> after == before
    ensures before <= after
  {
    if |before| <= max {
      LimitIsOneMoreThanRoom(max - |before|);
    }
  }

  /** A body that continues a blob where the session ends leaves a prefix of the blob, however the append ends. */
  lemma AppendKeepsPrefix(blob: Bytes, before: Bytes, body: Bytes, max: nat, after: Bytes, r: Appended)
    requires before <= blob && body <= blob[|before|..]
    requires AppendOutcome(before, body, max, after, r)
    ensures after <= blob
  {
    if after != before {
      var k: nat :| k <= |body| && after == before + body[..k];
      assert after == blob[..|before| + k];
    }
  }

  /** Success means the body arrived. */
  ghost predicate SuccessIsComplete(before: Bytes, body: Bytes, max: nat) {
    forall after, r :: AppendOutcome(before, body, max, after, r) && r.Done? ==> after == before + body
  }

  /**
   A successful append has taken the whole body, except in exactly one case: a limit of 2^63-1 and an empty
   session. There the body is dropped and success reported.
   */
  lemma SuccessIsCompleteExactly(before: Bytes, body: Bytes, max: nat)
    requires max <= MAX_INT64 && body != []
    ensures SuccessIsComplete(before, body, max) <==> !(max == MAX_INT64 && before == [])
  {
    if |before| <= max {
      LimitIsOneMoreThanRoom(max - |before|);
    }
    if max == MAX_INT64 && before == [] {
      assert body[..0] == [] && AppendOutcome(before, body, max, before, Done(0));
      assert before + body != before;
    } else {
      assert body[..|body|] == body;
    }
  }

  /** An append that runs to its end is refused exactly when the body does not fit. */
  lemma RefusedExactlyWhenTooLarge(before: Bytes, body: Bytes, max: nat, after: Bytes, r: Appended)
    requires max < MAX_INT64 && |before| <= max && AppendOutcome(before, body, max, after, r) && !r.Failed?
    ensures r.TooLarge? <==> |before| + |body| > max
  {
    LimitIsOneMoreThanRoom(max - |before|);
  }
}
