/** The read side of src/bufio.c: a buffer refilled from a descriptor, handing out slices of itself. */
module BufReader {
  import opened Bytes
  import opened Delimiters
  import opened Sequences

  /** What one call of read(2) would answer; a call asking for less gets less. */
  datatype Reply = Data(bytes: seq<byte>) | EndOfFile | Error

  function Cut(reply: Reply, max: nat): (bytes: seq<byte>)
    ensures |bytes| <= max
  {
    if !reply.Data? then [] else if |reply.bytes| <= max then reply.bytes else reply.bytes[..max]
  }

  /** The first of the answers that is no error; Error if the descriptor fails for ever. */
  function Answer(script: seq<Reply>, last: Reply): Reply {
    if script == [] then last else if script[0].Error? then Answer(script[1..], last) else script[0]
  }

  /** The descriptor: any answers, and then one that it repeats for ever. */
  class Input {
    var script: seq<Reply>
    const last: Reply
    ghost var given: seq<byte>

    constructor (replies: seq<Reply>, ending: Reply)
      ensures script == replies && last == ending && given == []
    {
      script := replies;
      last := ending;
      given := [];
    }

    function Next(): Reply
      reads this
    {
      if script == [] then last else script[0]
    }

    function Later(): seq<Reply>
      reads this
    {
      if script == [] then [] else script[1..]
    }

    method Read(max: nat) returns (n: int, bytes: seq<byte>)
      modifies this
      ensures bytes == Cut(old(Next()), max) && n == (if old(Next()).Error? then -1 else |bytes|)
      ensures given == old(given) + bytes && script == old(Later())
    {
      var reply := Next();
      script := Later();
      bytes := Cut(reply, max);
      n := if reply.Error? then -1 else |bytes|;
      given := given + bytes;
    }
  }

  // What a fill and a line get come to, as functions of the bytes held and of what read answers

  /** A buffer of `size` bytes that holds `held` from `start` on. */
  datatype View = View(size: nat, start: nat, held: seq<byte>)

  predicate Fits(v: View) {
    v.size > 0 && v.start + |v.held| <= v.size
  }

  /** A request of 0 asks for as much as the buffer takes. */
  function Wanted(v: View, request: nat): nat {
    if request == 0 then v.size else request
  }

  predicate Compacts(v: View, want: nat) {
    |v.held| < want && v.size < v.start + want && v.held != []
  }

  function Room(v: View, want: nat): (room: nat)
    requires Fits(v)
    ensures room <= v.size
  {
    if Compacts(v, want) then v.size - |v.held| else v.size - v.start - |v.held|
  }

  function Gained(v: View, request: nat, reply: Reply): seq<byte>
    requires Fits(v)
  {
    var want := Wanted(v, request);
    if |v.held| >= want then [] else Cut(reply, Room(v, want))
  }

  function Filled(v: View, request: nat, reply: Reply): (v': View)
    requires Fits(v)
    ensures Fits(v')
  {
    View(v.size, if Compacts(v, Wanted(v, request)) then 0 else v.start, v.held + Gained(v, request, reply))
  }

  /** src/bufio.c:172-183: an error passes for success when the request was 0. */
  predicate Succeeds(v: View, request: nat, reply: Reply)
    requires Fits(v)
  {
    |Filled(v, request, reply).held| >= Wanted(v, request) || (request == 0 && reply.Error?)
  }

  /** A fill can succeed if and only if enough is held already, or there is something held to be moved
      down, or there is room enough behind `start`. In particular a buffer whose bytes have all been
      handed out is not moved back to its beginning. */
  lemma FillableIff(v: View, request: nat)
    requires Fits(v) && 0 < request <= v.size
    ensures (exists reply :: Succeeds(v, request, reply)) <==>
      |v.held| >= request || v.held != [] || v.start + request <= v.size
  {
    var reply := Data(seq(v.size, _ => NUL));
    assert |Gained(v, request, reply)| == if |v.held| >= request then 0 else Room(v, request);
    if |v.held| >= request || v.held != [] || v.start + request <= v.size {
      assert Succeeds(v, request, reply);
    }
  }

  datatype LineResult = NoLine | Line(at: nat, length: nat) | Spins

  /** Where the scan of src/bufio.c:212-228 has come to when it runs out of bytes: an index into the
      buffer, which a later compaction does not adjust. */
  function Resume(v: View, d: seq<byte>): nat
    requires |d| > 0
  {
    if |v.held| < |d| then v.start else v.start + |v.held| - |d| + 1
  }

  /** The first match from `i` on, or one past the end of the sequence. */
  function FindFrom(s: seq<byte>, i: nat, d: seq<byte>): nat {
    if i > |s| then |s| + 1 else Find(s, i, d)
  }

  lemma FindHere(s: seq<byte>, i: nat, d: seq<byte>)
    requires |d| > 0 && i + |d| <= |s|
    ensures FindFrom(s, i, d) == if s[i..i + |d|] == d then i else FindFrom(s, i + 1, d)
  {
  }

  lemma FindNoMore(s: seq<byte>, i: nat, d: seq<byte>)
    requires |d| > 0 && i + |d| > |s|
    ensures FindFrom(s, i, d) == |s| + 1
  {
  }

  /** What cpr_lgetbuf answers for a buffer `v` when the first answer of read that is no error is
      `answer`: a line held already; or one found when a single read fills the buffer to the brim.
      `Spins` is an endless loop. */
  function LineOf(v: View, d: seq<byte>, answer: Reply): LineResult
    requires Fits(v) && |d| > 0
  {
    var k := FindFrom(v.held, 0, d);
    var full := Filled(v, 0, answer).held;
    if k <= |v.held| then Line(v.start, k)
    else if |v.held| == v.size || answer.Error? then Spins
    else if |full| < v.size then NoLine
    else
      var k := FindFrom(full, Resume(v, d), d);
      if k <= |full| then Line(0, k) else Spins
  }

  lemma FindFromContains(s: seq<byte>, d: seq<byte>)
    requires |d| > 0
    ensures FindFrom(s, 0, d) <= |s| <==> Contains(s, d)
    ensures FindFrom(s, 0, d) <= |s| ==> FirstMatch(s, FindFrom(s, 0, d), d)
  {
  }

  /** cpr_lgetbuf never returns if and only if no delimiter is held, and the buffer is full, or read fails
      for ever, or one read fills the buffer without a delimiter from where the scan goes on. */
  lemma SpinsIff(v: View, d: seq<byte>, answer: Reply)
    requires Fits(v) && |d| > 0
    ensures LineOf(v, d, answer).Spins? <==>
      && !Contains(v.held, d)
      && var full := Filled(v, 0, answer).held;
        || |v.held| == v.size
        || answer.Error?
        || (|full| == v.size && forall k :: Resume(v, d) <= k < v.size ==> !IsAt(full, k, d))
  {
    FindFromContains(v.held, d);
    var full := Filled(v, 0, answer).held;
    var k := FindFrom(full, Resume(v, d), d);
    assert k <= |full| ==> IsAt(full, k, d) && k < |full|;
  }

  /** What the caller is owed: the first delimiter of what the buffer holds in the end, and no line only if
      that holds none. */
  ghost predicate FirstLine(v: View, d: seq<byte>, answer: Reply)
    requires Fits(v) && |d| > 0
  {
    var w := if Contains(v.held, d) || answer.Error? then v else Filled(v, 0, answer);
    match LineOf(v, d, answer)
    case Line(at, length) => at == w.start && FirstMatch(w.held, length, d)
    case Spins => !Contains(w.held, d)
    case NoLine => !Contains(w.held, d)
  }

  /** A delimiter may come to lie at `k`, across or behind the end of what is held. */
  ghost predicate MayMatch(v: View, d: seq<byte>, k: nat)
    requires |d| > 0
  {
    |v.held| < k + |d| && forall j :: k <= j < |v.held| ==> v.held[j] == d[j - k]
  }

  /** Position `k` is one the scan has passed before the compaction moves it there. */
  ghost predicate SkippedAt(v: View, d: seq<byte>, k: nat)
    requires |d| > 0
  {
    k < Resume(v, d) && k + |d| <= v.size && MayMatch(v, d, k)
  }

  ghost predicate MaySkip(v: View, d: seq<byte>)
    requires |d| > 0
  {
    !Contains(v.held, d) && v.held != [] && |v.held| < v.size && exists k :: SkippedAt(v, d, k)
  }

  /** The most that a read can bring without filling the buffer to the brim. */
  function LongestShortRead(v: View): nat
    requires Fits(v)
  {
    if |v.held| == v.size then 0
    else if v.held == [] && v.start > 0 then v.size - v.start
    else v.size - |v.held| - 1
  }

  /** A delimiter may come with a short read, for which cpr_lgetbuf answers NULL. */
  ghost predicate MayGiveUp(v: View, d: seq<byte>)
    requires Fits(v) && |d| > 0
  {
    !Contains(v.held, d) && exists k: nat :: MayMatch(v, d, k) && k + |d| <= |v.held| + LongestShortRead(v)
  }

  lemma FullAfterFill(v: View, reply: Reply)
    requires Fits(v) && |v.held| < v.size && |Filled(v, 0, reply).held| == v.size
    ensures Filled(v, 0, reply).start == 0 && (v.held != [] || v.start == 0)
  {
  }

  /** A delimiter that comes with a read lies across or behind the end of the bytes held before. */
  lemma MatchBehind(v: View, more: seq<byte>, d: seq<byte>, k: nat)
    requires |d| > 0 && !Contains(v.held, d) && IsAt(v.held + more, k, d)
    ensures MayMatch(v, d, k)
  {
    var full := v.held + more;
    if k + |d| <= |v.held| {
      assert full[k..k + |d|] == v.held[k..k + |d|];
      assert IsAt(v.held, k, d);
    }
    forall j | k <= j < |v.held|
      ensures v.held[j] == d[j - k]
    {
      assert full[j] == full[k..k + |d|][j - k];
    }
  }

  lemma PassedOver(v: View, d: seq<byte>, answer: Reply, k: nat)
    requires Fits(v) && |d| > 0 && !Contains(v.held, d) && |v.held| < v.size
    requires var full := Filled(v, 0, answer).held; |full| == v.size && IsAt(full, k, d) && k < Resume(v, d)
    ensures MaySkip(v, d)
  {
    FullAfterFill(v, answer);
    MatchBehind(v, Gained(v, 0, answer), d, k);
    assert SkippedAt(v, d, k);
  }

  /** `n` bytes to read that put a delimiter at `k`. */
  function Trap(v: View, d: seq<byte>, k: nat, n: nat): seq<byte> {
    seq(n, i requires 0 <= i < n => var j := |v.held| + i; if k <= j < k + |d| then d[j - k] else NUL)
  }

  lemma TrapMatches(v: View, d: seq<byte>, k: nat, n: nat)
    requires |d| > 0 && MayMatch(v, d, k) && k + |d| <= |v.held| + n
    ensures IsAt(v.held + Trap(v, d, k, n), k, d)
  {
    var full := v.held + Trap(v, d, k, n);
    forall j | 0 <= j < |d|
      ensures full[k + j] == d[j]
    {
      if k + j < |v.held| {
        assert full[k + j] == v.held[k + j] == d[k + j - k];
      }
    }
    assert full[k..k + |d|] == d;
  }

  lemma TrapSkips(v: View, d: seq<byte>, k: nat)
    requires Fits(v) && |d| > 0 && !Contains(v.held, d) && v.held != [] && |v.held| < v.size
    requires SkippedAt(v, d, k)
    ensures !FirstLine(v, d, Data(Trap(v, d, k, v.size - |v.held|)))
  {
    var n := v.size - |v.held|;
    var answer := Data(Trap(v, d, k, n));
    FindFromContains(v.held, d);
    var full := Filled(v, 0, answer).held;
    assert full == v.held + Trap(v, d, k, n);
    TrapMatches(v, d, k, n);
    FindFromContains(full, d);
    assert FindFrom(full, Resume(v, d), d) >= Resume(v, d);
  }

  ghost predicate GivesUp(v: View, d: seq<byte>, answer: Reply)
    requires Fits(v) && |d| > 0
  {
    LineOf(v, d, answer).NoLine? && Contains(Filled(v, 0, answer).held, d)
  }

  lemma TrapGivesUp(v: View, d: seq<byte>, k: nat)
    requires Fits(v) && |d| > 0 && !Contains(v.held, d)
    requires MayMatch(v, d, k) && k + |d| <= |v.held| + LongestShortRead(v)
    ensures GivesUp(v, d, Data(Trap(v, d, k, LongestShortRead(v))))
  {
    var n := LongestShortRead(v);
    var answer := Data(Trap(v, d, k, n));
    FindFromContains(v.held, d);
    assert Filled(v, 0, answer).held == v.held + Trap(v, d, k, n);
    TrapMatches(v, d, k, n);
  }

  lemma ShortReads(v: View, d: seq<byte>, answer: Reply)
    requires Fits(v) && |d| > 0 && GivesUp(v, d, answer)
    ensures MayGiveUp(v, d)
  {
    FindFromContains(v.held, d);
    var more := Gained(v, 0, answer);
    assert |more| <= LongestShortRead(v);
    var k :| 0 <= k <= |v.held + more| && IsAt(v.held + more, k, d);
    MatchBehind(v, more, d, k);
  }

  /** Some answer of read brings a delimiter and makes cpr_lgetbuf answer NULL all the same, if and only if
      none is held and one fits, with what is held, into a read that leaves room in the buffer. */
  lemma GivesUpIff(v: View, d: seq<byte>)
    requires Fits(v) && |d| > 0
    ensures (exists answer :: LineOf(v, d, answer).NoLine? && Contains(Filled(v, 0, answer).held, d))
      <==> MayGiveUp(v, d)
  {
    if MayGiveUp(v, d) {
      var k: nat :| MayMatch(v, d, k) && k + |d| <= |v.held| + LongestShortRead(v);
      TrapGivesUp(v, d, k);
      assert GivesUp(v, d, Data(Trap(v, d, k, LongestShortRead(v))));
    }
    if answer :| LineOf(v, d, answer).NoLine? && Contains(Filled(v, 0, answer).held, d) {
      ShortReads(v, d, answer);
    }
  }

  /** A short read of a whole line into an empty buffer. */
  lemma ShortReadGivesUp()
    ensures LineOf(View(8, 0, []), [NEWLINE], Data([65, NEWLINE])) == NoLine
    ensures Contains(Filled(View(8, 0, []), 0, Data([65, NEWLINE])).held, [NEWLINE])
  {
    var v, answer := View(8, 0, []), Data([65, NEWLINE]);
    var full := Filled(v, 0, answer).held;
    assert full == [65, NEWLINE] && full[1..2] == [NEWLINE];
    assert IsAt(full, 1, [NEWLINE]);
    FindNoMore([], 0, [NEWLINE]);
  }

  lemma NotSkipped(v: View, d: seq<byte>, answer: Reply)
    requires Fits(v) && |d| > 0 && !MaySkip(v, d) && !GivesUp(v, d, answer)
    ensures FirstLine(v, d, answer)
  {
    FindFromContains(v.held, d);
    var full := Filled(v, 0, answer).held;
    if |v.held| == v.size {
      assert full == v.held;
    } else if !Contains(v.held, d) && !answer.Error? && |full| == v.size {
      FullAfterFill(v, answer);
      var r := FindFrom(full, Resume(v, d), d);
      forall k | 0 <= k <= |full| && k < r
        ensures !IsAt(full, k, d)
      {
        if IsAt(full, k, d) && k < Resume(v, d) {
          PassedOver(v, d, answer, k);
        }
      }
    }
  }

  /** Whatever read answers, cpr_lgetbuf ends its line at the first delimiter, and spins or gives up only
      without one, if and only if none could come to lie where the scan has passed or with a short read. */
  lemma FirstLineIff(v: View, d: seq<byte>)
    requires Fits(v) && |d| > 0
    ensures (forall answer :: FirstLine(v, d, answer)) <==> !MaySkip(v, d) && !MayGiveUp(v, d)
  {
    if MaySkip(v, d) {
      var k :| SkippedAt(v, d, k);
      TrapSkips(v, d, k);
    } else if MayGiveUp(v, d) {
      var k: nat :| MayMatch(v, d, k) && k + |d| <= |v.held| + LongestShortRead(v);
      TrapGivesUp(v, d, k);
      assert !FirstLine(v, d, Data(Trap(v, d, k, LongestShortRead(v))));
    } else {
      forall answer
        ensures FirstLine(v, d, answer)
      {
        if GivesUp(v, d, answer) {
          ShortReads(v, d, answer);
        }
        NotSkipped(v, d, answer);
      }
    }
  }

  /** A buffer that starts at its beginning skips nothing, nor does an empty one. */
  lemma NoSkipFromStart(v: View, d: seq<byte>)
    requires Fits(v) && |d| > 0 && (v.start == 0 || v.held == [])
    ensures !MaySkip(v, d)
  {
  }

  /** One line with a delimiter inside it, and an endless loop before a delimiter. */
  lemma SkippedDelimiters()
    ensures LineOf(View(4, 1, [65]), [NEWLINE], Data([NEWLINE, 66, NEWLINE])) == Line(0, 3)
    ensures LineOf(View(4, 2, [65, 66]), [NEWLINE], Data([NEWLINE, NEWLINE])) == Spins
  {
    var d := [NEWLINE];
    var v, a := View(4, 1, [65]), Data([NEWLINE, 66, NEWLINE]);
    var full := Filled(v, 0, a).held;
    assert full == [65, NEWLINE, 66, NEWLINE];
    assert full[2..3] == [66] && full[3..4] == d;
    FindHere(v.held, 0, d);
    FindNoMore(v.held, 1, d);
    FindHere(full, 2, d);
    FindHere(full, 3, d);
    var w, b := View(4, 2, [65, 66]), Data([NEWLINE, NEWLINE]);
    assert Filled(w, 0, b).held == [65, 66, NEWLINE, NEWLINE];
    FindHere(w.held, 0, d);
    FindHere(w.held, 1, d);
    FindNoMore(w.held, 2, d);
    FindNoMore(Filled(w, 0, b).held, 4, d);
  }

  /** An error only moves the bytes held, so the next answer finds the same room. */
  lemma ErrorThen(v: View, reply: Reply)
    requires Fits(v)
    ensures Filled(Filled(v, 0, Error), 0, reply) == Filled(v, 0, reply)
    ensures Filled(v, 0, Error).held == v.held
  {
  }

  lemma StillNoMatch(s: seq<byte>, i: nat, j: nat, d: seq<byte>)
    requires i <= j && FindFrom(s, i, d) > |s|
    ensures FindFrom(s, j, d) > |s|
  {
  }

  /** Why `Spins` is endless: when nothing is found and the buffer is full, or read fails, the fill
      succeeds without a byte, nothing is found again, and the next such turn changes nothing at all. */
  lemma TurnRepeats(now: View, d: seq<byte>, scan: nat, reply: Reply)
    requires Fits(now) && now.start <= scan && FindFrom(now.held, scan - now.start, d) > |now.held|
    requires |now.held| == now.size || reply.Error?
    ensures var after := Filled(now, 0, reply);
      && Succeeds(now, 0, reply) && after.held == now.held
      && FindFrom(after.held, scan - after.start, d) > |after.held|
      && Filled(after, 0, reply) == after
  {
    StillNoMatch(now.held, scan - now.start, scan - Filled(now, 0, reply).start, d);
  }

  /** How far the loop of cpr_lgetbuf has come since it found the buffer as `v`, its scan being at `scan`:
      nowhere yet; or past errors only; or past the read that filled the buffer. `next` is the answer it
      would get now, `answer` the one it would have got then. */
  ghost predicate Going(v: View, d: seq<byte>, answer: Reply, now: View, next: Reply, scan: nat, first: bool)
    requires Fits(v) && |d| > 0
  {
    && Fits(now) && now.size == v.size && now.start <= scan
    && if first then now == v && scan == v.start && next == answer
       else
         && !Contains(v.held, d) && |v.held| < v.size && scan == Resume(v, d)
         && if |now.held| < v.size then now == Filled(v, 0, Error) && next == answer
            else now == Filled(v, 0, answer) && !answer.Error?
  }

  lemma NotWithin(s: seq<byte>, i: nat, d: seq<byte>)
    requires !Contains(s, d)
    ensures FindFrom(s, i, d) > |s|
  {
  }

  lemma FoundNow(v: View, d: seq<byte>, answer: Reply, now: View, next: Reply, scan: nat, first: bool)
    requires Fits(v) && |d| > 0 && Going(v, d, answer, now, next, scan, first)
    requires FindFrom(now.held, scan - now.start, d) <= |now.held|
    ensures LineOf(v, d, answer) == Line(now.start, FindFrom(now.held, scan - now.start, d))
  {
    if !first {
      FindFromContains(v.held, d);
      NotWithin(v.held, scan - now.start, d);
      ErrorThen(v, answer);
      if |now.held| == v.size {
        FullAfterFill(v, answer);
      }
    }
  }

  lemma NeverNow(v: View, d: seq<byte>, answer: Reply, now: View, next: Reply, scan: nat, first: bool)
    requires Fits(v) && |d| > 0 && Going(v, d, answer, now, next, scan, first)
    requires FindFrom(now.held, scan - now.start, d) > |now.held|
    requires |now.held| == v.size || next.Error?
    ensures LineOf(v, d, answer).Spins?
  {
    FindFromContains(v.held, d);
    if !first && |now.held| == v.size {
      FullAfterFill(v, answer);
    }
  }

  lemma ScannedTo(v: View, d: seq<byte>, answer: Reply, now: View, next: Reply, scan: nat, first: bool)
    requires Fits(v) && |d| > 0 && Going(v, d, answer, now, next, scan, first)
    requires FindFrom(now.held, scan - now.start, d) > |now.held| && |now.held| < v.size
    ensures !Contains(v.held, d) && |v.held| < v.size
    ensures var end := now.start + |now.held|;
      Resume(v, d) == if scan + |d| > end then scan else end - |d| + 1
  {
    FindFromContains(v.held, d);
  }

  /** What the end of a scan means for the loop. */
  lemma ScanMeans(v: View, d: seq<byte>, answer: Reply, now: View, next: Reply, from: nat, first: bool,
                  scan: nat, found: bool)
    requires Fits(v) && |d| > 0 && Going(v, d, answer, now, next, from, first)
    requires found <==> FindFrom(now.held, from - now.start, d) <= |now.held|
    requires found ==> scan == now.start + FindFrom(now.held, from - now.start, d)
    requires var end := now.start + |now.held|;
      !found ==> scan == if from + |d| > end then from else end - |d| + 1
    ensures found ==> LineOf(v, d, answer) == Line(now.start, scan - now.start)
    ensures !found && |now.held| < v.size ==> scan == Resume(v, d)
    ensures !found && (|now.held| == v.size || next.Error?) ==> LineOf(v, d, answer).Spins?
  {
    if found {
      FoundNow(v, d, answer, now, next, from, first);
    } else {
      if |now.held| < v.size {
        ScannedTo(v, d, answer, now, next, from, first);
      }
      if |now.held| == v.size || next.Error? {
        NeverNow(v, d, answer, now, next, from, first);
      }
    }
  }

  /** What a fill with the reply `reply` makes of the loop when nothing was found. */
  lemma FillNow(v: View, d: seq<byte>, answer: Reply, now: View, next: Reply, scan: nat, first: bool, reply: Reply)
    requires Fits(v) && |d| > 0 && Going(v, d, answer, now, next, scan, first)
    requires FindFrom(now.held, scan - now.start, d) > |now.held| && |now.held| < v.size
    requires !reply.Error? ==> reply == next
    ensures !Succeeds(now, 0, reply) ==>
      LineOf(v, d, answer).NoLine? && Filled(now, 0, reply) == Filled(v, 0, answer)
    ensures Succeeds(now, 0, reply) ==>
      Going(v, d, answer, Filled(now, 0, reply), next, Resume(v, d), false)
  {
    ScannedTo(v, d, answer, now, next, scan, first);
    FindFromContains(v.held, d);
    ErrorThen(v, reply);
    ErrorThen(v, Error);
    assert Filled(now, 0, reply) == Filled(v, 0, reply);
    if Succeeds(now, 0, reply) && !reply.Error? {
      FullAfterFill(v, reply);
    }
  }

  lemma GoingWhenFull(v: View, d: seq<byte>, answer: Reply, now: View, next: Reply, next': Reply)
    requires Fits(v) && |d| > 0 && |now.held| == v.size && Going(v, d, answer, now, next, Resume(v, d), false)
    ensures Going(v, d, answer, now, next', Resume(v, d), false)
  {
  }

  datatype Slice = Null | Slice(at: nat, length: nat)

  class Reader {
    const bufsize: nat
    var start: nat
    var end: nat
    const buf: array<byte>
    const dev: Input
    /** Every byte handed out or discarded so far, delimiters included. */
    ghost var taken: seq<byte>

    ghost predicate Valid()
      reads this, buf, dev
    {
      && bufsize > 0 && buf.Length == bufsize + 1
      && start <= end <= bufsize
      && taken + buf[start..end] == dev.given
    }

    ghost function Pending(): seq<byte>
      requires start <= end <= buf.Length
      reads this, buf
    {
      buf[start..end]
    }

    ghost function Now(): (v: View)
      requires Valid()
      reads this, buf, dev
      ensures Fits(v)
    {
      View(bufsize, start, Pending())
    }

    /** src/bufio.c:57-87 on a descriptor that is not a terminal. */
    constructor (fd: Input, size: nat)
      requires size > 0 && fd.given == []
      ensures Valid() && fresh(buf) && dev == fd && bufsize == size && taken == []
      ensures start == end == 0
    {
      bufsize := size;
      start, end := 0, 0;
      buf := new byte[size + 1](_ => NUL);
      dev := fd;
      taken := [];
    }

    /** The memmove of src/bufio.c:97 and 158. */
    method Compact()
      requires Valid()
      modifies this`start, this`end, buf
      ensures Valid() && start == 0 && Pending() == old(Pending())
    {
      ghost var was := buf[start..end];
      forall i | 0 <= i < end - start {
        buf[i] := buf[start + i];
      }
      end := end - start;
      start := 0;
      assert buf[0..end] == was;
    }

    /** src/bufio.c:157-161 */
    method MakeRoom(want: nat)
      requires Valid() && |Pending()| < want
      modifies this`start, this`end, buf
      ensures Valid() && Pending() == old(Pending())
      ensures start == if Compacts(old(Now()), want) then 0 else old(start)
      ensures bufsize - end == Room(old(Now()), want)
    {
      var avail := bufsize - start;
      if avail < want && start < end {
        Compact();
      }
    }

    /** src/bufio.c:182, also when the buffer is full: there is one byte more. */
    method Sentinel()
      requires Valid()
      modifies buf
      ensures Valid() && Now() == old(Now())
    {
      ghost var was := buf[start..end];
      buf[end] := NUL;
      assert buf[start..end] == was;
    }

    /** The bytes of a read, put behind `end`, and the sentinel behind them. */
    method Store(bytes: seq<byte>)
      requires start <= end && end + |bytes| < buf.Length
      modifies this`end, buf
      ensures end == old(end) + |bytes| && buf[start..end] == old(buf[start..end]) + bytes
    {
      ghost var was := buf[start..end];
      forall i | 0 <= i < |bytes| {
        buf[end + i] := bytes[i];
      }
      end := end + |bytes|;
      buf[end] := NUL;
      assert forall k :: start <= k < end ==> buf[k] == (was + bytes)[k - start];
    }

    /** src/bufio.c:170-179: one read into the space behind `end`. */
    method ReadMore() returns (n: int)
      requires Valid()
      modifies this`end, buf, dev
      ensures Valid() && dev.script == old(dev.Later())
      ensures Pending() == old(Pending()) + Cut(old(dev.Next()), old(bufsize - end))
      ensures n == if old(dev.Next()).Error? then -1 else end - old(end)
    {
      var bytes;
      n, bytes := dev.Read(bufsize - end);
      Associative(taken, Pending(), bytes);
      Store(bytes);
    }

    /** src/bufio.c:146-184. Nothing is lost or taken whatever the answer. */
    method Fill(request: nat) returns (ok: bool)
      requires Valid()
      modifies this`start, this`end, buf, dev
      ensures Valid()
      ensures request > bufsize ==> !ok && Now() == old(Now()) && dev.script == old(dev.script)
      ensures request <= bufsize ==>
        && (ok <==> Succeeds(old(Now()), request, old(dev.Next())))
        && Now() == Filled(old(Now()), request, old(dev.Next()))
        && dev.script ==
          if |old(Pending())| >= Wanted(old(Now()), request) then old(dev.script) else old(dev.Later())
    {
      if request > bufsize {
        return false;
      }
      var remains := end - start;
      var refill := request == 0;
      var want := if refill then bufsize else request;
      if remains < want {
        MakeRoom(want);
        var n := ReadMore();
        if n > 0 {
          ok := end - start >= want;
        } else if n == 0 {
          ok := false;
        } else {
          ok := refill;
        }
      } else {
        Sentinel();
        ok := true;
      }
    }

    /** Moves the cursor over bytes handed out or discarded. */
    method Consume(n: nat)
      requires Valid() && start + n <= end
      modifies this`start, this`taken
      ensures Valid() && start == old(start) + n
      ensures taken == old(taken) + buf[old(start)..old(start) + n]
      ensures Pending() == old(Pending())[n..]
    {
      ghost var first, rest := buf[start..start + n], buf[start + n..end];
      SliceJoin(buf[..], start, start + n, end);
      Associative(taken, first, rest);
      taken := taken + first;
      start := start + n;
    }

    /** src/bufio.c:198-204 */
    method XGet(request: nat) returns (out: Slice)
      requires Valid()
      modifies this, buf, dev
      ensures Valid()
      ensures out.Slice? <==> request <= bufsize && Succeeds(old(Now()), request, old(dev.Next()))
      ensures out.Null? ==> taken == old(taken)
      ensures out.Null? && request <= bufsize ==> Now() == Filled(old(Now()), request, old(dev.Next()))
      ensures out.Slice? ==> start == Filled(old(Now()), request, old(dev.Next())).start + request
      ensures out.Slice? ==>
        && out.length == request && out.at + request == start
        && taken == old(taken) + buf[out.at..start]
    {
      if bufsize < request {
        return Null;
      }
      var ok := Fill(request);
      if !ok {
        return Null;
      }
      out := Slice(start, request);
      Consume(request);
    }

    /** src/bufio.c:89-104 */
    method Reset(consume: nat) returns (ok: bool)
      requires Valid()
      modifies this, buf, dev
      ensures Valid()
      ensures consume > |old(Pending())| ==> !ok && taken == old(taken) && Now() == old(Now())
      ensures consume <= |old(Pending())| ==>
        && taken == old(taken) + old(Pending())[..consume]
        && var left := View(bufsize, 0, old(Pending())[consume..]);
          // the rest is refilled, and the room to be filled, not the whole buffer, decides the answer
          if |left.held| < bufsize then
            && Now() == Filled(left, bufsize - |left.held|, old(dev.Next()))
            && (ok <==> Succeeds(left, bufsize - |left.held|, old(dev.Next())))
          else
            ok && Now() == left && dev.script == old(dev.script)
    {
      if consume > bufsize || start + consume > end {
        return false;
      }
      assert buf[start..start + consume] == Pending()[..consume];
      Consume(consume);
      Compact();
      var remains := end;
      if remains < bufsize {
        ok := Fill(bufsize - remains);
      } else {
        ok := true;
      }
    }

    lemma FindAt(at: nat, d: seq<byte>)
      requires |d| > 0 && start <= at && at + |d| <= end <= buf.Length
      ensures FindFrom(Pending(), at - start, d) ==
        if buf[at..at + |d|] == d then at - start else FindFrom(Pending(), at + 1 - start, d)
    {
      SliceOfSlice(buf[..], start, end, at - start, |d|);
      assert buf[..][start..end] == Pending() && buf[..][at..at + |d|] == buf[at..at + |d|];
      FindHere(Pending(), at - start, d);
    }

    /** The scan of src/bufio.c:212-228: the first match from `from` on inside the bytes held. */
    method Scan(from: nat, d: seq<byte>) returns (scan: nat, found: bool)
      requires Valid() && start <= from && |d| > 0
      ensures found <==> FindFrom(Pending(), from - start, d) <= |Pending()|
      ensures found ==> scan == start + FindFrom(Pending(), from - start, d)
      ensures found ==> scan + |d| <= end && buf[scan..scan + |d|] == d
      ensures !found ==> scan == if from + |d| > end then from else end - |d| + 1
    {
      scan := from;
      found := false;
      while scan + |d| <= end
        invariant from <= scan && (scan == from || scan + |d| <= end + 1)
        invariant FindFrom(Pending(), from - start, d) == FindFrom(Pending(), scan - start, d)
        decreases end - scan
      {
        FindAt(scan, d);
        if buf[scan..scan + |d|] == d {
          found := true;
          return;
        }
        scan := scan + 1;
      }
      FindNoMore(Pending(), scan - start, d);
    }

    /** The scan in the course of a line get. */
    method ScanOn(ghost v: View, d: seq<byte>, ghost answer: Reply, from: nat, ghost first: bool)
      returns (scan: nat, found: bool)
      requires Valid() && Fits(v) && |d| > 0
      requires Going(v, d, answer, Now(), Answer(dev.script, dev.last), from, first)
      ensures start <= scan
      ensures found ==> LineOf(v, d, answer) == Line(start, scan - start)
      ensures found ==> scan + |d| <= end && buf[scan..scan + |d|] == d
      ensures !found ==> FindFrom(Pending(), from - start, d) > |Pending()|
      ensures !found && end - start < bufsize ==> scan == Resume(v, d)
      ensures !found && (end - start == bufsize || (dev.script == [] && dev.last.Error?)) ==>
        LineOf(v, d, answer).Spins?
    {
      ghost var now, next := Now(), Answer(dev.script, dev.last);
      scan, found := Scan(from, d);
      ScanMeans(v, d, answer, now, next, from, first, scan, found);
    }

    /** The NUL behind a line, where its delimiter was. */
    method EndLine(scan: nat)
      requires Valid() && scan < start
      modifies buf
      ensures Valid() && buf[..scan] == old(buf[..scan]) && buf[scan] == NUL && Pending() == old(Pending())
    {
      ghost var front, rest := buf[..scan], buf[start..end];
      buf[scan] := NUL;
      assert buf[start..end] == rest;
      assert buf[..scan] == front;
    }

    /** src/bufio.c:214-225 for a match at `scan`. */
    method TakeLine(scan: nat, d: seq<byte>, outlen: bool) returns (line: LineResult)
      requires Valid() && start <= scan && scan + |d| <= end && buf[scan..scan + |d|] == d
      requires |d| > 0
      modifies this`start, this`taken, buf
      ensures Valid()
      ensures line == Line(old(start), scan - old(start)) && start == scan + |d|
      ensures taken == old(taken) + buf[line.at..scan] + d
      ensures buf[line.at..scan] == old(buf[start..scan])
      ensures !outlen ==> buf[scan] == NUL
    {
      var at := start;
      ghost var text := buf[at..scan];
      SliceJoin(buf[..], at, scan, scan + |d|);
      Consume(scan + |d| - start);
      line := Line(at, scan - at);
      if !outlen {
        EndLine(scan);
      }
      Associative(old(taken), text, d);
    }

    /** src/bufio.c:229 in the course of a line get. */
    method FillOn(ghost v: View, d: seq<byte>, ghost answer: Reply, ghost scan: nat, ghost first: bool)
      returns (ok: bool)
      requires Valid() && Fits(v) && |d| > 0
      requires Going(v, d, answer, Now(), Answer(dev.script, dev.last), scan, first)
      requires FindFrom(Pending(), scan - start, d) > |Pending()| && |Pending()| < bufsize
      requires dev.script != [] || !dev.last.Error?
      modifies this`start, this`end, buf, dev
      ensures Valid()
      ensures ok ==> Going(v, d, answer, Now(), Answer(dev.script, dev.last), Resume(v, d), false)
      ensures !ok ==> LineOf(v, d, answer).NoLine? && Now() == Filled(v, 0, answer)
      ensures ok ==> |dev.script| < |old(dev.script)| || (dev.script == old(dev.script) && |Pending()| == bufsize)
    {
      ghost var now, next, reply := Now(), Answer(dev.script, dev.last), dev.Next();
      FillNow(v, d, answer, now, next, scan, first, reply);
      ok := Fill(0);
      if ok && !reply.Error? {
        GoingWhenFull(v, d, answer, Now(), next, Answer(dev.script, dev.last));
      }
    }

    /** One turn of the loop of src/bufio.c:211-231. The loop of the source goes on for ever once a fill can
        change nothing more: the buffer is full, or read does nothing but fail. */
    method Turn(ghost v: View, d: seq<byte>, ghost answer: Reply, from: nat, ghost first: bool, outlen: bool)
      returns (line: LineResult, scan: nat, more: bool)
      requires Valid() && Fits(v) && |d| > 0
      requires Going(v, d, answer, Now(), Answer(dev.script, dev.last), from, first)
      modifies this, buf, dev
      ensures Valid()
      ensures more ==> Going(v, d, answer, Now(), Answer(dev.script, dev.last), scan, false)
      ensures more ==> |dev.script| < |old(dev.script)| || (dev.script == old(dev.script) && |Pending()| == bufsize)
      ensures more ==> |old(Pending())| < bufsize
      ensures more || !line.Line? ==> taken == old(taken)
      ensures !more ==> line == LineOf(v, d, answer)
      ensures !more && line.NoLine? ==> Now() == Filled(v, 0, answer)
      ensures !more && line.Line? ==> line.at + line.length + |d| == start
      ensures !more && line.Line? ==> taken == old(taken) + buf[line.at..line.at + line.length] + d
      ensures !more && line.Line? && !outlen ==> buf[line.at + line.length] == NUL
    {
      line, more := Spins, false;
      var found;
      scan, found := ScanOn(v, d, answer, from, first);
      if found {
        line := TakeLine(scan, d, outlen);
      } else if end - start < bufsize && (dev.script != [] || !dev.last.Error?) {
        more := FillOn(v, d, answer, from, first);
        line := NoLine;
      }
    }

    /** src/bufio.c:206-232 for the delimiter `delim`; `outlen` says whether the caller asked for the
        length, and if not the line is ended with a NUL in place. */
    method LGet(outlen: bool, delim: seq<byte>) returns (line: LineResult)
      requires Valid() && delim != []
      modifies this, buf, dev
      ensures Valid()
      ensures line == LineOf(old(Now()), Used(delim), Answer(old(dev.script), dev.last))
      ensures !line.Line? ==> taken == old(taken)
      ensures line.NoLine? ==> Now() == Filled(old(Now()), 0, Answer(old(dev.script), dev.last))
      ensures line.Line? ==> start == line.at + line.length + |Used(delim)|
      ensures line.Line? ==> taken == old(taken) + buf[line.at..line.at + line.length] + Used(delim)
      ensures line.Line? && !outlen ==> buf[line.at + line.length] == NUL
    {
      var d := Used(delim);
      var scan: nat := start;
      ghost var v, answer, first := Now(), Answer(dev.script, dev.last), true;
      var more := true;
      line := NoLine;
      while more
        invariant Valid()
        invariant more ==> taken == old(taken)
        invariant more ==> Going(v, d, answer, Now(), Answer(dev.script, dev.last), scan, first)
        invariant !more ==> line == LineOf(v, d, answer) && (!line.Line? ==> taken == old(taken))
        invariant !more && line.NoLine? ==> Now() == Filled(v, 0, answer)
        invariant !more && line.Line? ==> line.at + line.length + |d| == start
        invariant !more && line.Line? ==> taken == old(taken) + buf[line.at..line.at + line.length] + d
        invariant !more && line.Line? && !outlen ==> buf[line.at + line.length] == NUL
        decreases more, first, |dev.script|, bufsize - |Pending()|
      {
        line, scan, more := Turn(v, d, answer, scan, first, outlen);
        first := false;
      }
    }
  }
}
