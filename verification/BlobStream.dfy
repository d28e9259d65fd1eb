/** The resume loop of `ghcr-blob-stream.py`: a blob is fetched over attempts
    that a server may refuse, cut or answer as it likes. After a cut the request
    asks for the rest with a Range header (sections 14.2 and 15.3.7 of RFC 9110). */
module BlobStream {
  import opened Text

  const CHUNK: nat := 4 * 1024 * 1024
  const MAX_ATTEMPTS: nat := 40

  // ---- Servers ----

  /** What one `read` meets: some bytes (a read never returns more than it asked
      for), the end of the body, or a broken connection. */
  datatype Read = Bytes(count: nat) | Eof | Cut

  /** The answer to one request. `renewed` is whether a new token can be had. */
  datatype Response =
    | HttpError(code: nat, renewed: bool)
    | Unreachable
    | Answer(status: nat, body: seq<Byte>, events: seq<Read>)

  /** The answer to attempt `a` asking for the blob from an offset. */
  type Server = (nat, nat) -> Response

  /** How many bytes a read of at most `limit` returns of what is left of a body. */
  function ReadSize(count: nat, limit: nat, left: nat): (n: nat)
    ensures n <= limit && n <= left
  {
    Min(Min(if count == 0 then 1 else count, limit), left)
  }

  /** What the inner loop takes from a body when `wanted` bytes are still missing,
      and whether the connection broke. */
  function Receive(events: seq<Read>, body: seq<Byte>, wanted: nat): (r: (seq<Byte>, bool))
    ensures |r.0| <= wanted && r.0 <= body
  {
    if wanted == 0 || events == [] || events[0] == Eof then ([], false)
    else if events[0] == Cut then ([], true)
    else
      var n := ReadSize(events[0].count, Min(CHUNK, wanted), |body|);
      if n == 0 then ([], false) else
        var r := Receive(events[1..], body[n..], wanted - n);
        assert body == body[..n] + body[n..];
        (body[..n] + r.0, r.1)
  }

  // ---- Attempts ----

  datatype Exit = Finished | GaveUp | CannotResume | NoToken

  /** After some attempts: the output so far, the seconds slept, and why the loop
      has been left early, if it has. */
  datatype Session = Session(out: seq<Byte>, attempts: nat, slept: nat, stop: Option<Exit>)

  function Backoff(attempt: nat): nat { Min(30, 2 * attempt) }

  /** One attempt. */
  function Attempt(server: Server, size: nat, s: Session): Session
    requires |s.out| < size
  {
    var a := s.attempts + 1;
    var s := s.(attempts := a);
    var waited := s.(slept := s.slept + Backoff(a));
    match server(a, |s.out|)
    case HttpError(code, renewed) =>
      if code == 401 && !renewed then s.(stop := Some(NoToken)) else waited
    case Unreachable => waited
    case Answer(status, body, events) =>
      if |s.out| > 0 && status != 206 then s.(stop := Some(CannotResume)) else
        var r := Receive(events, body, size - |s.out|);
        (if r.1 then waited else s).(out := s.out + r.0)
  }

  /** The loop may go on. */
  predicate Running(s: Session, size: nat) { s.stop.None? && |s.out| < size && s.attempts < MAX_ATTEMPTS }

  /** All attempts from `s` on. */
  function Attempts(server: Server, size: nat, s: Session): Session
    requires s.attempts <= MAX_ATTEMPTS
    decreases MAX_ATTEMPTS - s.attempts
  {
    if !Running(s, size) then s else Attempts(server, size, Attempt(server, size, s))
  }

  const NOTHING := Session([], 0, 0, None)

  /** The session of a download; nothing is asked for when the size is not positive. */
  function Download(server: Server, size: int): Session {
    if size > 0 then Attempts(server, size, NOTHING) else NOTHING
  }

  /** The inner loop: `out` and the hashed bytes grow together. */
  method ReceiveBody(events: seq<Read>, body: seq<Byte>, wanted: nat, soFar: seq<Byte>)
    returns (out: seq<Byte>, hashed: seq<Byte>, cut: bool)
    ensures out == soFar + Receive(events, body, wanted).0 && cut == Receive(events, body, wanted).1
    ensures hashed == out
  {
    out, hashed, cut := soFar, soFar, false;
    var pending, rest, left: nat := events, body, wanted;
    while left > 0
      invariant !cut && hashed == out
      invariant out + Receive(pending, rest, left).0 == soFar + Receive(events, body, wanted).0
      invariant Receive(pending, rest, left).1 == Receive(events, body, wanted).1
      decreases |pending|
    {
      if pending == [] || pending[0] == Eof { break; }
      if pending[0] == Cut { cut := true; break; }
      var n := ReadSize(pending[0].count, Min(CHUNK, left), |rest|);
      if n == 0 { break; }
      Associative(out, rest[..n], Receive(pending[1..], rest[n..], left - n).0);
      out, hashed := out + rest[..n], hashed + rest[..n];
      pending, rest, left := pending[1..], rest[n..], left - n;
    }
    assert out + [] == out;
  }

  /** One request and what comes of it; `hashed` is the state of the hash object. */
  method TryOnce(server: Server, size: nat, s: Session, hashed: seq<Byte>) returns (t: Session, hashed': seq<Byte>)
    requires |s.out| < size && hashed == s.out
    ensures t == Attempt(server, size, s) && hashed' == t.out
  {
    var a := s.attempts + 1;
    t, hashed' := s.(attempts := a), hashed;
    match server(a, |s.out|)
    case HttpError(code, renewed) =>
      if code == 401 && !renewed { return t.(stop := Some(NoToken)), hashed'; }
      t := t.(slept := t.slept + Backoff(a));
    case Unreachable =>
      t := t.(slept := t.slept + Backoff(a));
    case Answer(status, body, events) =>
      if |s.out| > 0 && status != 206 { return t.(stop := Some(CannotResume)), hashed'; }
      var out, cut;
      out, hashed', cut := ReceiveBody(events, body, size - |s.out|, s.out);
      t := t.(out := out);
      if cut { t := t.(slept := t.slept + Backoff(a)); }
  }

  /** The exit code of the program. */
  function MainCode(s: Session, haveToken: bool, size: int, digest: string, sha: seq<Byte> -> string): int {
    if haveToken && |s.out| == size && "sha256:" + sha(s.out) == digest then 0 else 1
  }

  /** `main` after the reference has been parsed. `sha` is the hexadecimal SHA-256. */
  method Stream(server: Server, size: int, digest: string, sha: seq<Byte> -> string, haveToken: bool)
    returns (code: int, s: Session)
    ensures s == if haveToken then Download(server, size) else NOTHING
    ensures code == MainCode(s, haveToken, size, digest, sha)
    ensures code == 0 <==> haveToken && |s.out| == size && "sha256:" + sha(s.out) == digest
    ensures code in {0, 1}
  {
    s := NOTHING;
    if !haveToken { return 1, s; }
    if size <= 0 {
      code := if size == 0 && "sha256:" + sha([]) == digest then 0 else 1;
      return;
    }
    var hashed: seq<Byte> := [];
    while |s.out| < size && s.stop.None?
      invariant hashed == s.out && s.attempts <= MAX_ATTEMPTS && (s.stop.Some? ==> |s.out| < size)
      invariant Attempts(server, size, NOTHING) == Attempts(server, size, s)
      decreases MAX_ATTEMPTS - s.attempts
    {
      if s.attempts + 1 > MAX_ATTEMPTS { return 1, s; }
      s, hashed := TryOnce(server, size, s, hashed);
    }
    if s.stop.Some? || |s.out| != size { return 1, s; }
    code := if "sha256:" + sha(hashed) == digest then 0 else 1;
  }

  // ---- One attempt ----

  /** The connection is refused, or breaks before the attempt is over. */
  predicate Breaks(r: Response, missing: nat) {
    match r
    case HttpError(_, _) => true
    case Unreachable => true
    case Answer(_, body, events) => Receive(events, body, missing).1
  }

  /** What an attempt costs: two seconds for each attempt so far, at most thirty,
      when it breaks and the program goes on; nothing after a short read. */
  lemma AttemptSleeps(server: Server, size: nat, s: Session)
    requires |s.out| < size && s.stop.None?
    ensures var t, r := Attempt(server, size, s), server(s.attempts + 1, |s.out|);
            && t.attempts == s.attempts + 1
            && t.slept - s.slept == (if Breaks(r, size - |s.out|) && t.stop.None?
                                     then (if s.attempts + 1 <= 15 then 2 * (s.attempts + 1) else 30) else 0)
  {}

  /** Which answers end the program: a 401 without a new token, and an answer to a
      request for the rest that is not 206. Neither adds output. */
  lemma AttemptEnds(server: Server, size: nat, s: Session)
    requires |s.out| < size && s.stop.None?
    ensures var t, r := Attempt(server, size, s), server(s.attempts + 1, |s.out|);
            && (t.stop.Some? <==> || r == HttpError(401, false)
                                  || (r.Answer? && s.out != [] && r.status != 206))
            && (t.stop.Some? || !r.Answer? ==> t.out == s.out)
  {}

  /** ... and then it is over, with exit code 1. */
  lemma EndedIsOver(server: Server, size: nat, s: Session, digest: string, sha: seq<Byte> -> string)
    requires |s.out| < size && s.attempts < MAX_ATTEMPTS && s.stop.None?
    requires Attempt(server, size, s).stop.Some?
    ensures Attempts(server, size, s) == Attempt(server, size, s)
    ensures MainCode(Attempts(server, size, s), true, size, digest, sha) == 1
  {
    AttemptEnds(server, size, s);
  }

  /** A read gives what is there, up to what it asks for: 4 MiB or what is missing. */
  lemma OneRead(body: seq<Byte>, count: nat, wanted: nat)
    requires count > 0
    ensures Receive([Bytes(count)], body, wanted)
            == (body[..Min(Min(count, 4194304), Min(wanted, |body|))], false)
  {
    if wanted > 0 {
      var n := ReadSize(count, Min(CHUNK, wanted), |body|);
      assert [Bytes(count)][1..] == [] && Receive([], body[n..], wanted - n) == ([], false);
      assert body[..n] + [] == body[..n];
    }
  }

  /** The end of the body and a broken connection end the reading; only the second
      counts as broken. */
  lemma ReadingEnds(events: seq<Read>, body: seq<Byte>, wanted: nat)
    ensures Receive([Eof] + events, body, wanted) == ([], false)
    ensures Receive([Cut] + events, body, wanted) == ([], wanted > 0)
    ensures Receive([], body, wanted) == ([], false)
  {}

  // ---- Any server ----

  /** The sum of the back-offs of the first `k` attempts, in closed form. */
  function BackoffSum(k: nat): nat { if k <= 15 then k * (k + 1) else 240 + 30 * (k - 15) }

  ghost predicate WithinBounds(s: Session, size: nat) {
    |s.out| <= size && s.attempts <= MAX_ATTEMPTS && s.slept <= BackoffSum(s.attempts)
  }

  /** Whatever the server does: output is only ever appended and never exceeds the
      size, there are at most MAX_ATTEMPTS requests and 990 seconds of back-off,
      and the loop ends with all bytes, with a reason to stop, or out of attempts. */
  lemma {:induction false} AnyServer(server: Server, size: nat, s: Session)
    requires WithinBounds(s, size)
    ensures var t := Attempts(server, size, s);
            && WithinBounds(t, size) && t.slept <= 990
            && s.out <= t.out
            && (|t.out| == size || t.stop.Some? || t.attempts == MAX_ATTEMPTS)
    decreases MAX_ATTEMPTS - s.attempts
  {
    if Running(s, size) {
      AnyServer(server, size, Attempt(server, size, s));
    }
  }

  /** The bound is tight: a server that cannot be reached costs all of it. */
  lemma {:induction false} UnreachableServer(server: Server, size: nat, s: Session)
    requires forall a: nat, offset: nat :: server(a, offset) == Unreachable
    requires s.stop.None? && |s.out| < size && s.attempts <= MAX_ATTEMPTS && s.slept == BackoffSum(s.attempts)
    ensures Attempts(server, size, s) == Session(s.out, MAX_ATTEMPTS, 990, None)
    decreases MAX_ATTEMPTS - s.attempts
  {
    if Running(s, size) {
      UnreachableServer(server, size, Attempt(server, size, s));
    }
  }

  // ---- A server that honours Range ----

  /** A body that is sent, in full or cut short, is the blob from the offset on;
      an answer to a Range request that is not 206 need not be. */
  ghost predicate Honest(server: Server, blob: seq<Byte>) {
    forall a: nat, offset: nat | offset <= |blob| ::
      HonestAnswer(server(a, offset), offset, blob)
  }

  predicate HonestAnswer(r: Response, offset: nat, blob: seq<Byte>)
    requires offset <= |blob|
  {
    r.Answer? && (offset == 0 || r.status == 206) ==> r.body <= blob[offset..]
  }

  lemma AttemptHonest(server: Server, blob: seq<Byte>, size: nat, s: Session)
    requires Honest(server, blob) && s.out <= blob && |s.out| < size
    ensures Attempt(server, size, s).out <= blob
  {}

  /** No byte is skipped or repeated, at any time and for any schedule of faults. */
  lemma {:induction false} OutputIsPrefix(server: Server, blob: seq<Byte>, size: nat, s: Session)
    requires Honest(server, blob) && s.out <= blob && s.attempts <= MAX_ATTEMPTS
    ensures Attempts(server, size, s).out <= blob
    decreases MAX_ATTEMPTS - s.attempts
  {
    if Running(s, size) {
      AttemptHonest(server, blob, size, s);
      OutputIsPrefix(server, blob, size, Attempt(server, size, s));
    }
  }

  // ---- When the download completes ----

  /** What an honest server has in store for each attempt, whatever the offset. */
  datatype Offer = Refuse(code: nat, renewed: bool) | NoRoute | Serve(events: seq<Read>)

  function Respond(offer: Offer, offset: nat, blob: seq<Byte>): Response
    requires offset <= |blob|
  {
    match offer
    case Refuse(code, renewed) => HttpError(code, renewed)
    case NoRoute => Unreachable
    case Serve(events) => Answer(if offset > 0 then 206 else 200, blob[offset..], events)
  }

  /** The server answers by the offers as long as there is something left to ask for. */
  ghost predicate Follows(server: Server, offers: nat -> Offer, blob: seq<Byte>) {
    forall a: nat, offset: nat | offset < |blob| :: server(a, offset) == Respond(offers(a), offset, blob)
  }

  /** The token is refused and no new one can be had: the exception that the token
      request raises inside the handler ends the program. */
  predicate LosesToken(o: Offer) { o.Refuse? && o.code == 401 && !o.renewed }

  /** How many of the first `k` attempts come before one that loses the token. */
  function Granted(offers: nat -> Offer, k: nat): (g: nat)
    ensures g <= k && forall a | 1 <= a <= g :: !LosesToken(offers(a))
    ensures g < k ==> LosesToken(offers(g + 1))
  {
    if k == 0 then 0 else
      var g := Granted(offers, k - 1);
      if g == k - 1 && !LosesToken(offers(k)) then k else g
  }

  /** How many bytes an attempt can deliver before its end or cut. */
  function Capacity(events: seq<Read>): nat {
    if events == [] || !events[0].Bytes? then 0
    else Min(if events[0].count == 0 then 1 else events[0].count, CHUNK) + Capacity(events[1..])
  }

  function OfferCapacity(o: Offer): nat { if o.Serve? then Capacity(o.events) else 0 }

  /** ... and the first `k` attempts together. */
  function Total(offers: nat -> Offer, k: nat): nat {
    if k == 0 then 0 else Total(offers, k - 1) + OfferCapacity(offers(k))
  }

  lemma {:induction false} ReceivedSize(events: seq<Read>, body: seq<Byte>, wanted: nat)
    requires wanted <= |body|
    ensures |Receive(events, body, wanted).0| == Min(wanted, Capacity(events))
  {
    if wanted == 0 || events == [] || !events[0].Bytes? {
    } else {
      var rest := Capacity(events[1..]);
      var n := ReadSize(events[0].count, Min(CHUNK, wanted), |body|);
      ReceivedSize(events[1..], body[n..], wanted - n);
      assert |Receive(events, body, wanted).0| == n + Min(wanted - n, rest);
    }
  }

  lemma AttemptDelivers(server: Server, offers: nat -> Offer, blob: seq<Byte>, size: nat, s: Session)
    requires Follows(server, offers, blob) && size <= |blob|
    requires s.stop.None? && |s.out| < size
    ensures var t, o := Attempt(server, size, s), offers(s.attempts + 1);
            && t.attempts == s.attempts + 1
            && (if LosesToken(o) then t.stop == Some(NoToken) && t.out == s.out
                else t.stop.None? && |t.out| == Min(size, |s.out| + OfferCapacity(o)))
  {
    var o := offers(s.attempts + 1);
    assert server(s.attempts + 1, |s.out|) == Respond(o, |s.out|, blob);
    if o.Serve? { ReceivedSize(o.events, blob[|s.out|..], size - |s.out|); }
  }

  lemma {:induction false} TotalGrows(offers: nat -> Offer, j: nat, k: nat)
    requires j <= k
    ensures Total(offers, j) <= Total(offers, k)
  {
    if j < k { TotalGrows(offers, j, k - 1); }
  }

  /** Attempt `g + 1`, if it is allowed, is the first to lose the token. */
  ghost predicate FirstLoss(offers: nat -> Offer, g: nat) {
    && g <= MAX_ATTEMPTS && (forall a | 1 <= a <= g :: !LosesToken(offers(a)))
    && (g < MAX_ATTEMPTS ==> LosesToken(offers(g + 1)))
  }

  /** The output after all attempts is as long as what those before a lost token
      deliver together. */
  lemma {:induction false} OutputSize(server: Server, offers: nat -> Offer, blob: seq<Byte>, size: nat,
                                      s: Session, g: nat)
    requires Follows(server, offers, blob) && size <= |blob| && FirstLoss(offers, g)
    requires s.stop.None? && s.attempts <= g && |s.out| == Min(size, Total(offers, s.attempts))
    ensures |Attempts(server, size, s).out| == Min(size, Total(offers, g))
    decreases MAX_ATTEMPTS - s.attempts
  {
    if !Running(s, size) {
      TotalGrows(offers, s.attempts, g);
    } else {
      AttemptDelivers(server, offers, blob, size, s);
      if s.attempts < g { OutputSize(server, offers, blob, size, Attempt(server, size, s), g); }
    }
  }

  lemma Downloaded(server: Server, offers: nat -> Offer, blob: seq<Byte>, size: int, g: nat)
    requires Follows(server, offers, blob) && Honest(server, blob) && FirstLoss(offers, g)
    ensures Download(server, size).out <= blob
    ensures 0 <= size <= |blob| ==> |Download(server, size).out| == Min(size, Total(offers, g))
  {
    if size > 0 { OutputIsPrefix(server, blob, size, NOTHING); }
    if 0 < size <= |blob| { OutputSize(server, offers, blob, size, NOTHING, g); }
  }

  /** The download succeeds exactly when the attempts before a lost token, of the
      allowed ones, together deliver the size and the blob is the one asked for. */
  lemma DownloadCompletes(server: Server, offers: nat -> Offer, blob: seq<Byte>, size: int,
                          digest: string, sha: seq<Byte> -> string)
    requires Follows(server, offers, blob) && Honest(server, blob)
    ensures MainCode(Download(server, size), true, size, digest, sha) == 0
            <==> && 0 <= size <= |blob| && "sha256:" + sha(blob[..size]) == digest
                 && Total(offers, Granted(offers, MAX_ATTEMPTS)) >= size
    ensures Download(server, size).out <= blob
    ensures 0 <= size <= |blob| ==>
              Download(server, size).out == blob[..Min(size, Total(offers, Granted(offers, MAX_ATTEMPTS)))]
  {
    Downloaded(server, offers, blob, size, Granted(offers, MAX_ATTEMPTS));
    var out := Download(server, size).out;
    assert out == blob[..|out|];
  }

  /** ... in other words: when some number of attempts suffices and none of them
      loses the token. */
  lemma EnoughBeforeLoss(offers: nat -> Offer, size: nat)
    ensures Total(offers, Granted(offers, MAX_ATTEMPTS)) >= size
            <==> exists k: nat | k <= MAX_ATTEMPTS ::
                   Total(offers, k) >= size && forall a | 1 <= a <= k :: !LosesToken(offers(a))
  {
    var g := Granted(offers, MAX_ATTEMPTS);
    if k: nat :| k <= MAX_ATTEMPTS && Total(offers, k) >= size && forall a | 1 <= a <= k :: !LosesToken(offers(a)) {
      assert k <= g;
      TotalGrows(offers, k, g);
    }
  }

  /** A server that does what the offers say. */
  function OfferServer(offers: nat -> Offer, blob: seq<Byte>): Server {
    (a: nat, offset: nat) => if offset <= |blob| then Respond(offers(a), offset, blob) else Unreachable
  }

  lemma OfferServerFollows(offers: nat -> Offer, blob: seq<Byte>)
    ensures Follows(OfferServer(offers, blob), offers, blob) && Honest(OfferServer(offers, blob), blob)
  {}

  /** The token is refused once; every other attempt delivers a byte. */
  function RefusesOnce(a: nat): Offer { if a == 1 then Refuse(401, false) else Serve([Bytes(1)]) }

  /** The failing input: 40 attempts deliver a blob of one byte many times over, and
      the program gives up at the first because no new token can be had. */
  lemma LostTokenEnds(digest: string, sha: seq<Byte> -> string)
    ensures var server := OfferServer(RefusesOnce, [7]);
            && Follows(server, RefusesOnce, [7]) && Honest(server, [7])
            && Total(RefusesOnce, MAX_ATTEMPTS) >= 1
            && MainCode(Download(server, 1), true, 1, digest, sha) == 1
  {
    OfferServerFollows(RefusesOnce, [7]);
    DownloadCompletes(OfferServer(RefusesOnce, [7]), RefusesOnce, [7], 1, digest, sha);
    assert LosesToken(RefusesOnce(1));
    assert Granted(RefusesOnce, MAX_ATTEMPTS) == 0;
    assert Capacity([Bytes(1)]) == 1 + Capacity([]);
    assert OfferCapacity(RefusesOnce(2)) == 1;
    TotalGrows(RefusesOnce, 2, MAX_ATTEMPTS);
  }
}
