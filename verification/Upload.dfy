/**
 The streaming resumable upload (crates/mirage-backend-drive/src/upload.rs and resumable.rs)
 over the exact-length byte stream of crates/mirage-backend/src/object.rs, against a server
 that answers each request as it likes. Async suspension, retries and headers are left out.
 */
module Upload {
  import opened Basics

  const CHUNK_ALIGNMENT: nat := 262144
  const UPLOAD_CHUNK_BYTES: nat := CHUNK_ALIGNMENT * 128

  // ----- The exact-length stream -----

  datatype Item = Data(bytes: Bytes) | Fault

  /** What the stream would deliver up to its first fault. */
  function Content(items: seq<Item>): Bytes {
    if |items| == 0 || items[0].Fault? then [] else items[0].bytes + Content(items[1..])
  }

  predicate AllData(items: seq<Item>) {
    forall i :: 0 <= i < |items| ==> items[i].Data? && |items[i].bytes| > 0
  }

  lemma {:induction false} ContentConcat(a: seq<Item>, b: seq<Item>)
    requires AllData(a)
    ensures Content(a + b) == Content(a) + Content(b)
  {
    if |a| == 0 {
      assert a + b == b;
    } else {
      assert (a + b)[1..] == a[1..] + b;
      ContentConcat(a[1..], b);
    }
  }

  lemma ContentNext(items: seq<Item>, n: nat)
    requires n < |items| && AllData(items[..n]) && items[n].Data?
    ensures Content(items[..n + 1]) == Content(items[..n]) + items[n].bytes
  {
    assert items[..n + 1] == items[..n] + [items[n]];
    ContentConcat(items[..n], [items[n]]);
    assert [items[n]][1..] == [];
  }

  lemma ContentPrefix(items: seq<Item>, n: nat)
    requires n <= |items| && AllData(items[..n])
    ensures Content(items[..n]) <= Content(items)
  {
    assert items == items[..n] + items[n..];
    ContentConcat(items[..n], items[n..]);
  }

  class ByteStream {
    const inner: seq<Item>
    const expected: nat
    var next: nat
    var remaining: nat
    var finished: bool

    ghost predicate Valid()
      reads this
    {
      && next <= |inner|
      && (!finished ==> AllData(inner[..next]) && |Content(inner[..next])| + remaining == expected)
    }

    constructor (inner: seq<Item>, expected: nat)
      ensures Valid() && this.inner == inner && this.expected == expected && next == 0 && !finished
    {
      this.inner, this.expected := inner, expected;
      next, remaining, finished := 0, expected, false;
    }

    /** One poll: a non-empty piece within the declared length, an error, or the end at exactly that length. */
    method Poll() returns (item: Option<Result<Bytes>>)
      requires Valid()
      modifies this
      ensures Valid() && old(next) <= next <= |inner|
      ensures item == Some(Err) ==> finished
      ensures item.Some? && item.value.Ok? ==>
                !finished && next == old(next) + 1
                    && Content(inner[..next]) == Content(inner[..old(next)]) + item.value.value
      ensures item.None? && !old(finished) ==>
                next == |inner| && AllData(inner) && |Content(inner)| == expected && next == old(next)
    {
      if finished { return None; }
      if next == |inner| {
        finished := true;
        assert inner[..next] == inner;
        return if remaining == 0 then None else Some(Err);
      }
      var piece := inner[next];
      if piece.Fault? || |piece.bytes| == 0 || |piece.bytes| > remaining {
        finished := true;
        return Some(Err);
      }
      ContentNext(inner, next);
      next := next + 1;
      remaining := remaining - |piece.bytes|;
      return Some(Ok(piece.bytes));
    }
  }

  // ----- The server's answer -----

  /** A 308 with its Range header, a 200 or 201 with the size its body states, or anything else. */
  datatype Reply = Resume(range: Option<string>) | Done(size: Option<nat>) | Refused

  /** One PUT: Content-Range `bytes from-to/total` and its body. */
  datatype Put = Put(from: nat, to: nat, total: nat, body: Bytes)

  type Server = seq<Put> -> Reply

  const RANGE_PREFIX := "bytes=0-"

  function Digit(c: char): Option<nat> {
    if '0' <= c <= '9' then Some((c as int) - ('0' as int)) else None
  }

  function Digits(s: string): Option<nat> {
    if |s| == 0 then Some(0)
    else
      var front := Digits(s[..|s| - 1]);
      var last := Digit(s[|s| - 1]);
      if front.Some? && last.Some? then Some(front.value * 10 + last.value) else None
  }

  /** str::parse::<u64>: an optional plus sign, at least one digit, no overflow. */
  function ParseU64(s: string): Option<nat> {
    var t := if |s| > 0 && s[0] == '+' then s[1..] else s;
    var n := Digits(t);
    if |t| == 0 || n.None? || n.value > U64_MAX then None else n
  }

  function ParseCommitted(range: Option<string>, total: nat): Result<nat> {
    if range.None? then Ok(0)
    else if !(RANGE_PREFIX <= range.value) then Err
    else
      var end := ParseU64(range.value[|RANGE_PREFIX|..]);
      if end.None? || end.value + 1 > U64_MAX || end.value + 1 > total then Err else Ok(end.value + 1)
  }

  function Decimal(n: nat): (s: string)
    ensures |s| > 0
  {
    var last := ('0' as int + n % 10) as char;
    if n < 10 then [last] else Decimal(n / 10) + [last]
  }

  lemma {:induction false} DecimalParses(n: nat)
    ensures Digits(Decimal(n)) == Some(n) && Decimal(n)[0] != '+'
  {
    var last := ('0' as int + n % 10) as char;
    assert Digit(last) == Some(n % 10);
    if n < 10 {
      assert Decimal(n)[..0] == [];
    } else {
      DecimalParses(n / 10);
      assert Decimal(n)[..|Decimal(n)| - 1] == Decimal(n / 10);
    }
  }

  /** A well-formed Range header confirms exactly the bytes up to and including its end. */
  lemma CommittedRoundTrip(end: nat, total: nat)
    requires end < total <= U64_MAX
    ensures ParseCommitted(Some(RANGE_PREFIX + Decimal(end)), total) == Ok(end + 1)
  {
    DecimalParses(end);
    var value := RANGE_PREFIX + Decimal(end);
    assert value[|RANGE_PREFIX|..] == Decimal(end);
  }

  // ----- Content-Range -----

  function ContentRange(p: Put): string {
    "bytes " + Decimal(p.from) + "-" + Decimal(p.to) + "/" + Decimal(p.total)
  }

  /** The text before and after the first `c`. */
  function SplitAt(s: string, c: char): Option<(string, string)> {
    if |s| == 0 then None
    else if s[0] == c then Some(("", s[1..]))
    else
      var rest := SplitAt(s[1..], c);
      if rest.Some? then Some(([s[0]] + rest.value.0, rest.value.1)) else None
  }

  function Number(s: string): Option<nat> {
    if |s| == 0 then None else Digits(s)
  }

  /** range-unit SP first-pos "-" last-pos "/" complete-length, in the unit "bytes". */
  function ParseContentRange(s: string): Option<(nat, nat, nat)> {
    if !("bytes " <= s) then None
    else
      var dash := SplitAt(s[6..], '-');
      if dash.None? then None
      else
        var slash := SplitAt(dash.value.1, '/');
        if slash.None? then None
        else
          var first, last, complete := Number(dash.value.0), Number(slash.value.0), Number(slash.value.1);
          if first.None? || last.None? || complete.None? then None else Some((first.value, last.value, complete.value))
  }

  lemma {:induction false} SplitPlain(a: string, c: char, b: string)
    requires c !in a
    ensures SplitAt(a + [c] + b, c) == Some((a, b))
  {
    var s := a + [c] + b;
    if |a| == 0 {
      assert s[1..] == b;
    } else {
      assert s[1..] == a[1..] + [c] + b;
      SplitPlain(a[1..], c, b);
      assert a == [a[0]] + a[1..];
    }
  }

  lemma {:induction false} DecimalIsDigits(n: nat)
    ensures forall c :: c in Decimal(n) ==> '0' <= c <= '9'
  {
    if n >= 10 { DecimalIsDigits(n / 10); }
  }

  lemma AfterUnit(t: string)
    ensures "bytes " <= "bytes " + t && ("bytes " + t)[6..] == t
  {
  }

  lemma Associate(a: string, b: string, c: string)
    ensures "bytes " + a + "-" + b + "/" + c == "bytes " + (a + ['-'] + (b + ['/'] + c))
  {
  }

  lemma PartsRoundTrip(a: string, b: string, c: string)
    requires '-' !in a && '/' !in b && Number(a).Some? && Number(b).Some? && Number(c).Some?
    ensures ParseContentRange("bytes " + a + "-" + b + "/" + c)
            == Some((Number(a).value, Number(b).value, Number(c).value))
  {
    Associate(a, b, c);
    AfterUnit(a + ['-'] + (b + ['/'] + c));
    SplitPlain(a, '-', b + ['/'] + c);
    SplitPlain(b, '/', c);
  }

  lemma HeaderRoundTrip(p: Put)
    ensures ParseContentRange(ContentRange(p)) == Some((p.from, p.to, p.total))
  {
    DecimalIsDigits(p.from);
    DecimalIsDigits(p.to);
    DecimalParses(p.from);
    DecimalParses(p.to);
    DecimalParses(p.total);
    PartsRoundTrip(Decimal(p.from), Decimal(p.to), Decimal(p.total));
  }

  // ----- What was sent -----

  /**
   The requests carry the first `n` bytes of the source, in order and without gaps, each with a
   valid Content-Range (section 14.4 of RFC 9110) and, unless it completes the object, aligned.
   */
  ghost predicate Sent(puts: seq<Put>, source: Bytes, total: nat, n: nat) {
    if |puts| == 0 then n == 0
    else
      var last := puts[|puts| - 1];
      && last.from <= last.to < total == last.total && n == last.to + 1 <= |source|
      && last.body == source[last.from..n]
      && (n < total ==> |last.body| % CHUNK_ALIGNMENT == 0)
      && Sent(puts[..|puts| - 1], source, total, last.from)
  }

  function Bodies(puts: seq<Put>): Bytes {
    if |puts| == 0 then [] else Bodies(puts[..|puts| - 1]) + puts[|puts| - 1].body
  }

  /** Every byte of the prefix is sent exactly once. */
  lemma {:induction false} SentIsPrefix(puts: seq<Put>, source: Bytes, total: nat, n: nat)
    requires Sent(puts, source, total, n)
    ensures n <= |source| && Bodies(puts) == source[..n]
    decreases |puts|
  {
    if |puts| > 0 {
      var last := puts[|puts| - 1];
      SentIsPrefix(puts[..|puts| - 1], source, total, last.from);
      assert Bodies(puts) == Bodies(puts[..|puts| - 1]) + last.body;
      assert source[..last.from] + source[last.from..n] == source[..n];
    }
  }

  /** Every request sent has a range whose positions are in order and below the complete length. */
  lemma {:induction false} HeadersAreValid(puts: seq<Put>, source: Bytes, total: nat, n: nat, k: nat)
    requires Sent(puts, source, total, n) && k < |puts|
    ensures var range := ParseContentRange(ContentRange(puts[k]));
            && range.Some? && range.value.0 <= range.value.1 < range.value.2 == total
            && range.value.1 < |source| && puts[k].body == source[range.value.0..range.value.1 + 1]
    decreases |puts|
  {
    HeaderRoundTrip(puts[k]);
    if k < |puts| - 1 {
      HeadersAreValid(puts[..|puts| - 1], source, total, puts[|puts| - 1].from, k);
    }
  }

  lemma SentMore(puts: seq<Put>, source: Bytes, total: nat, n: nat, body: Bytes)
    requires Sent(puts, source, total, n) && |body| > 0 && n + |body| <= |source| && n + |body| <= total
    requires body == source[n..n + |body|] && (n + |body| < total ==> |body| % CHUNK_ALIGNMENT == 0)
    ensures Sent(puts + [Put(n, n + |body| - 1, total, body)], source, total, n + |body|)
  {
    var more := puts + [Put(n, n + |body| - 1, total, body)];
    assert more[..|more| - 1] == puts;
  }

  datatype Reason =
    | EmptyObject | StreamFailed | BadChunk | Misaligned | ServerFailed
    | HashMismatch | EndedEarly | TooMany | NoMetadata

  datatype ChunkResult = More | Finished(size: nat) | ChunkFailed(reason: Reason)

  datatype UploadResult = Completed(size: nat) | Failed(reason: Reason)

  class Session {
    const server: Server
    const total: nat
    var committed: nat
    var sent: seq<Put>

    constructor (server: Server, total: nat)
      ensures this.server == server && this.total == total && committed == 0 && sent == []
    {
      this.server, this.total := server, total;
      committed, sent := 0, [];
    }

    /** One chunk: refused without a request when malformed, otherwise sent once. */
    method UploadChunk(bytes: Bytes) returns (result: ChunkResult)
      modifies this
      ensures result == ChunkFailed(BadChunk) <==> |bytes| == 0 || old(committed) >= total
      ensures result == ChunkFailed(Misaligned) <==>
                |bytes| > 0 && old(committed) < total
                && (old(committed) + |bytes| > total
                    || (old(committed) + |bytes| < total && |bytes| % CHUNK_ALIGNMENT != 0))
      ensures result == ChunkFailed(BadChunk) || result == ChunkFailed(Misaligned) ==> sent == old(sent)
      ensures result != ChunkFailed(BadChunk) && result != ChunkFailed(Misaligned) ==>
                sent == old(sent) + [Put(old(committed), old(committed) + |bytes| - 1, total, bytes)]
      ensures result == More || result.Finished? ==> committed == old(committed) + |bytes|
      ensures result.Finished? ==> committed == total && result.size == total
      ensures result.ChunkFailed? ==>
                committed == old(committed) && result.reason in {BadChunk, Misaligned, ServerFailed}
    {
      if |bytes| == 0 || committed >= total { return ChunkFailed(BadChunk); }
      var end := committed + |bytes|;
      if end > total || (end < total && |bytes| % CHUNK_ALIGNMENT != 0) { return ChunkFailed(Misaligned); }
      sent := sent + [Put(committed, end - 1, total, bytes)];
      match server(sent)
      case Resume(range) =>
        var confirmed := ParseCommitted(range, total);
        if confirmed.Err? || confirmed.value != end { return ChunkFailed(ServerFailed); }
        committed := confirmed.value;
        return More;
      case Done(size) =>
        if end != total || size != Some(total) { return ChunkFailed(ServerFailed); }
        committed := total;
        return Finished(total);
      case Refused =>
        return ChunkFailed(ServerFailed);
    }
  }

  /** The state of an upload between requests: what was pulled is what was sent plus what is buffered. */
  ghost predicate InStep(session: Session, pulled: Bytes, source: Bytes, buffered: Bytes)
    reads session
  {
    && pulled <= source && |pulled| <= session.total
    && Sent(session.sent, source, session.total, session.committed)
    && session.committed + |buffered| == |pulled| && buffered == pulled[session.committed..]
  }

  /** Flushes full chunks while more than one chunk of the object is left. */
  method FlushFull(session: Session, ghost pulled: Bytes, ghost source: Bytes, buffered: Bytes)
    returns (left: Bytes, failure: Option<Reason>, ghost n: nat)
    requires InStep(session, pulled, source, buffered) && session.committed < session.total <= U64_MAX
    modifies session
    ensures failure.None? ==> InStep(session, pulled, source, left) && session.committed < session.total
                              && !(|left| >= UPLOAD_CHUNK_BYTES
                                   && session.committed + UPLOAD_CHUNK_BYTES < session.total)
    ensures failure.Some? ==>
              failure.value == ServerFailed && Sent(session.sent, source, session.total, n) && n < session.total
  {
    left, failure, n := buffered, None, session.committed;
    while |left| >= UPLOAD_CHUNK_BYTES && session.committed + UPLOAD_CHUNK_BYTES < session.total
      invariant InStep(session, pulled, source, left) && session.committed < session.total && failure.None?
      // Whenever the test gets as far as its sum, the sum fits 64 bits, whichever way the comparison goes.
      invariant |left| >= UPLOAD_CHUNK_BYTES ==> session.committed + UPLOAD_CHUNK_BYTES <= U64_MAX
      decreases |left|
    {
      var piece := left[..UPLOAD_CHUNK_BYTES];
      SentMore(session.sent, source, session.total, session.committed, piece);
      n := session.committed + UPLOAD_CHUNK_BYTES;
      var result := session.UploadChunk(piece);
      if result.ChunkFailed? { return left, Some(result.reason), n; }
      left := left[UPLOAD_CHUNK_BYTES..];
    }
  }

  /** Pulls the whole source through the session, holding back its last chunk. */
  method PullAll(session: Session, stream: ByteStream)
    returns (hashed: Bytes, left: Bytes, failure: Option<Reason>, ghost n: nat)
    requires stream.Valid() && stream.next == 0 && !stream.finished && 0 < stream.expected == session.total <= U64_MAX
    requires session.sent == [] && session.committed == 0
    modifies session, stream
    ensures var source := Content(stream.inner);
            && (failure.None? ==> hashed == source && |source| == session.total && InStep(session, source, source, left)
                                  && 0 < |left| == session.total - session.committed <= UPLOAD_CHUNK_BYTES)
            && (failure.Some? ==>
                failure.value in {StreamFailed, ServerFailed} && Sent(session.sent, source, session.total, n)
                                  && n < session.total)
  {
    ghost var source := Content(stream.inner);
    hashed, left, failure, n := [], [], None, 0;
    while true
      invariant stream.Valid() && !stream.finished && failure.None? && hashed == Content(stream.inner[..stream.next])
      invariant InStep(session, hashed, source, left) && session.committed < session.total
      invariant !(|left| >= UPLOAD_CHUNK_BYTES && session.committed + UPLOAD_CHUNK_BYTES < session.total)
      decreases |stream.inner| - stream.next
    {
      ContentPrefix(stream.inner, stream.next);
      var item := stream.Poll();
      if item.None? {
        assert stream.inner[..stream.next] == stream.inner;
        return;
      }
      if item.value.Err? {
        n := session.committed;
        return hashed, left, Some(StreamFailed), n;
      }
      var chunk := item.value.value;
      ContentPrefix(stream.inner, stream.next);
      assert (hashed + chunk)[session.committed..] == left + chunk;
      hashed := hashed + chunk;
      left, failure, n := FlushFull(session, hashed, source, left + chunk);
      if failure.Some? { return; }
    }
  }

  /** After the hash matched, what is left goes out: it is one chunk, the one that completes the object. */
  method SendRest(session: Session, ghost source: Bytes, buffered: Bytes) returns (result: UploadResult, ghost n: nat)
    requires InStep(session, source, source, buffered) && |source| == session.total
    requires 0 < |buffered| == session.total - session.committed <= UPLOAD_CHUNK_BYTES
    modifies session
    ensures Sent(session.sent, source, session.total, n) && n == session.total
    ensures result.Completed? ==> result.size == session.total
    ensures result.Failed? ==> result.reason in {ServerFailed, NoMetadata}
  {
    var left, completed: Option<nat> := buffered, None;
    n := session.committed;
    ghost var all := session.total;
    ghost var finalPut := Put(session.committed, all - 1, all, buffered);
    assert buffered == source[session.committed..session.committed + |buffered|];
    SentMore(session.sent, source, all, session.committed, buffered);
    ghost var puts := session.sent + [finalPut];
    ghost var done := false;
    while session.committed < session.total
      invariant !done ==> session.committed == all - |buffered| && left == buffered && session.sent + [finalPut] == puts
      invariant done ==> session.committed == all && |left| == 0 && session.sent == puts && n == all
      invariant completed.Some? ==> completed.value == all
      decreases session.total - session.committed
    {
      var remaining := session.total - session.committed;
      if |left| == 0 { return Failed(EndedEarly), n; }
      var length := Min(Min(|left|, remaining), UPLOAD_CHUNK_BYTES);
      var piece := left[..length];
      assert piece == buffered;
      left := left[length..];
      n, done := all, true;
      var chunk := session.UploadChunk(piece);
      if chunk.ChunkFailed? { return Failed(chunk.reason), n; }
      if chunk.Finished? { completed := Some(chunk.size); }
    }
    if |left| > 0 { return Failed(TooMany), n; }
    result := if completed.Some? then Completed(completed.value) else Failed(NoMetadata);
  }

  /**
   The upload. Whatever the server answers, the requests carry a prefix of the source; the byte
   that completes the object goes out only after the whole source was read and its hash
   matched; success means every byte was sent once; and the length checks never fire.
   */
  method UploadStream<Digest(==)>(session: Session, stream: ByteStream, hash: Bytes -> Digest, expected: Digest)
    returns (result: UploadResult, ghost n: nat)
    requires stream.Valid() && stream.next == 0 && !stream.finished && stream.expected == session.total <= U64_MAX
    requires session.sent == [] && session.committed == 0
    modifies session, stream
    ensures Sent(session.sent, Content(stream.inner), session.total, n)
    ensures session.total > 0 && n == session.total ==>
              |Content(stream.inner)| == session.total && hash(Content(stream.inner)) == expected
    ensures result.Completed? ==> result.size == session.total == n > 0 && Bodies(session.sent) == Content(stream.inner)
    ensures result.Failed? ==> result.reason !in {BadChunk, Misaligned, EndedEarly, TooMany}
  {
    ghost var source := Content(stream.inner);
    n := 0;
    if session.total == 0 { return Failed(EmptyObject), 0; }
    var hashed, left, failure;
    hashed, left, failure, n := PullAll(session, stream);
    if failure.Some? { return Failed(failure.value), n; }
    if hash(hashed) != expected { return Failed(HashMismatch), session.committed; }
    result, n := SendRest(session, source, left);
    SentIsPrefix(session.sent, source, session.total, n);
    assert source[..n] == source;
  }
}
