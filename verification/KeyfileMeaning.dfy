/** What a line of a keyfile means, told from its bytes, whoever wrote it (src/keyfile.c:71-114). */
module KeyfileMeaning {
  import opened Bytes
  import opened Sequences
  import opened Keyfile
  import opened KeyfileRoundTrip
  import opened KeyfileExact
  import opened KeyfileBuffer

  // Keys and values

  predicate IsQuote(c: byte) {
    c == SINGLE_QUOTE || c == DOUBLE_QUOTE
  }

  /** A value without the quotes around it, if it starts and ends with the same one. */
  function Bare(text: Text): Text {
    if text != [] && IsQuote(text[0]) && text[|text| - 1] == text[0] then
      if |text| == 1 then [] else text[1..|text| - 1]
    else text
  }

  /** Spaces, then the key from `b` to `k`, spaces, the first '=' at `e`, a space at most, then the value
      from `v` to `w`, and spaces. The key starts with a letter or digit and has two bytes or more. */
  ghost predicate PairAt(line: seq<byte>, b: nat, k: nat, e: nat, v: nat, w: nat) {
    && b + 2 <= k <= e < v <= w < |line|
    && (forall i :: 0 <= i < b ==> IsSpace(line[i]))
    && IsAlnum(line[b]) && !IsSpace(line[k - 1]) && (forall i :: b <= i < k ==> line[i] != EQUALS)
    && (forall i :: k <= i < e ==> IsSpace(line[i])) && line[e] == EQUALS
    && (v == e + 1 || (v == e + 2 && IsSpace(line[e + 1]) && v < w))
    && (v == e + 1 && v < w ==> !IsSpace(line[v]))
    && (v < w ==> !IsSpace(line[w - 1]))
    && (forall i :: w <= i < |line| ==> IsSpace(line[i]))
  }

  /** The line in the buffer when its end is trimmed: its bytes up to `w`, then NULs. */
  ghost predicate TrimmedTo(buf: seq<byte>, line: seq<byte>, w: nat) {
    && |buf| == SIZE && w < |line| < SIZE
    && (forall i :: 0 <= i < w ==> buf[i] == line[i] && buf[i] != NUL)
    && (forall i :: w <= i <= |line| ==> buf[i] == NUL)
  }

  /** Trimming a line whose last byte that is no space is before `w`. */
  lemma TrimsTo(buf: seq<byte>, line: seq<byte>, w: nat)
    requires IsLine(line) && Holds(buf, line) && 0 < w < |line|
    requires !IsSpace(line[w - 1]) && forall i :: w <= i < |line| ==> IsSpace(line[i])
    ensures End(buf, 0) < SIZE
    ensures var cut := TrimEnd(buf, End(buf, 0));
      && cut.1 == w - 1 && TrimmedTo(cut.0, line, w) && End(cut.0, 0) == w
      && ParseLine(buf) == ParseTrimmed(cut.0, cut.1)
  {
    assert forall i :: 0 <= i < |line| ==> buf[i] == buf[..|line|][i] == line[i];
    EndAt(buf, 0, |line|);
    TrimEndStops(buf, |line|);
    var cut := TrimEnd(buf, |line|);
    assert cut.0[|line|] == cut.0[|line|..][0] == buf[|line|..][0] == NUL;
    EndAt(cut.0, 0, w);
  }

  lemma KeyFound(buf: seq<byte>, line: seq<byte>, b: nat, k: nat, e: nat, v: nat, w: nat)
    requires PairAt(line, b, k, e, v, w) && TrimmedTo(buf, line, w) && End(buf, 0) == w
    ensures SkipSpaces(buf, 0) == b && End(buf, b) == w
    ensures FindEquals(buf, b) == e && KeyEnd(buf, b, e - 1) == k - 1
  {
    EndLater(buf, 0, b);
  }

  /** Which blank behind the '=' is passed over. */
  predicate StartsAt(buf: seq<byte>, e: nat, v: nat)
    requires e + 1 < |buf|
  {
    if v == e + 1 then buf[v] == NUL || !IsSpace(buf[v]) else v == e + 2 && buf[e + 1] != NUL && IsSpace(buf[e + 1])
  }

  lemma ValueStarts(buf: seq<byte>, b: nat, e: nat, v: nat)
    requires |buf| == SIZE && b < e < SIZE - 1 && End(buf, e + 1) < SIZE && StartsAt(buf, e, v)
    ensures v < SIZE
    ensures var bare := Unquote(buf, v);
      ParseValue(buf, b, e).0 == Pair(Key(Lower(CString(bare.1, b)), CString(bare.1, bare.0)))
  {
  }

  lemma UnquoteIs(buf: seq<byte>, v: nat, w: nat)
    requires |buf| == SIZE && v <= w < SIZE && End(buf, v) == w
    ensures Unquote(buf, v) ==
      if v < w && IsQuote(buf[v]) && buf[w - 1] == buf[v] then (if w - v == 1 then v else v + 1, buf[w - 1 := NUL])
      else (v, buf)
  {
  }

  lemma StringIs(buf: seq<byte>, line: seq<byte>, i: nat, j: nat)
    requires i <= j < |buf| && j <= |line| && buf[j] == NUL
    requires forall k :: i <= k < j ==> buf[k] == line[k] && buf[k] != NUL
    ensures CString(buf, i) == line[i..j]
  {
    EndAt(buf, i, j);
    assert buf[i..j] == line[i..j];
  }

  /** The value, once its start is known. */
  lemma BodyFound(buf: seq<byte>, line: seq<byte>, v: nat, w: nat)
    requires |buf| == SIZE && v <= w < |line| < SIZE && End(buf, v) == w && buf[w] == NUL
    requires forall i :: v <= i < w ==> buf[i] == line[i] && buf[i] != NUL
    ensures var bare := Unquote(buf, v); CString(bare.1, bare.0) == Bare(line[v..w])
  {
    UnquoteIs(buf, v, w);
    var bare := Unquote(buf, v);
    var text := line[v..w];
    if v < w && IsQuote(buf[v]) && buf[w - 1] == buf[v] {
      StringIs(bare.1, line, bare.0, w - 1);
      assert text[0] == buf[v] && text[|text| - 1] == buf[w - 1];
      if w - v > 1 {
        SliceOfSlice(line, v, w, 1, w - v - 2);
      }
    } else {
      StringIs(buf, line, v, w);
      assert v < w ==> text[0] == buf[v] && text[|text| - 1] == buf[w - 1];
    }
  }

  /** Unquoting does not touch the key. */
  lemma KeyKept(buf: seq<byte>, line: seq<byte>, b: nat, k: nat, v: nat, w: nat)
    requires |buf| == SIZE && b <= k < v <= w < |line| < SIZE && End(buf, v) == w && buf[k] == NUL
    requires forall i :: b <= i < k ==> buf[i] == line[i] && buf[i] != NUL
    ensures CString(Unquote(buf, v).1, b) == line[b..k]
  {
    UnquoteIs(buf, v, w);
    StringIs(Unquote(buf, v).1, line, b, k);
  }

  lemma EndedAt(buf: seq<byte>, line: seq<byte>, b: nat, k: nat, e: nat, v: nat, w: nat)
    requires PairAt(line, b, k, e, v, w) && TrimmedTo(buf, line, w)
    ensures var buf2 := buf[k := NUL];
      && End(buf2, e + 1) == w == End(buf2, v) && buf2[w] == NUL && StartsAt(buf2, e, v)
      && (forall i :: v <= i < w ==> buf2[i] == line[i] && buf2[i] != NUL)
      && (forall i :: b <= i < k ==> buf2[i] == line[i] && buf2[i] != NUL)
  {
    var buf2 := buf[k := NUL];
    EndAt(buf2, e + 1, w);
    EndAt(buf2, v, w);
  }

  /** What is found once the key is ended. */
  lemma ValueFound(buf: seq<byte>, line: seq<byte>, b: nat, k: nat, e: nat, v: nat, w: nat)
    requires PairAt(line, b, k, e, v, w) && TrimmedTo(buf, line, w)
    ensures var buf2 := buf[k := NUL];
      && End(buf2, e + 1) == w
      && ParseValue(buf2, b, e).0 == Pair(Key(Lower(line[b..k]), Bare(line[v..w])))
  {
    var buf2 := buf[k := NUL];
    EndedAt(buf, line, b, k, e, v, w);
    ValueStarts(buf2, b, e, v);
    BodyFound(buf2, line, v, w);
    KeyKept(buf2, line, b, k, v, w);
  }

  lemma PairLineMeans(line: seq<byte>, buf: seq<byte>, b: nat, k: nat, e: nat, v: nat, w: nat)
    requires IsLine(line) && Holds(buf, line) && PairAt(line, b, k, e, v, w)
    ensures End(buf, 0) < SIZE && ParseLine(buf).0 == Pair(Key(Lower(line[b..k]), Bare(line[v..w])))
  {
    TrimsTo(buf, line, w);
    var cut := TrimEnd(buf, End(buf, 0)).0;
    KeyFound(cut, line, b, k, e, v, w);
    ValueFound(cut, line, b, k, e, v, w);
    assert Ended(cut, b, e) == cut[k := NUL];
    PairFollows(cut, b, e, w - 1);
  }

  lemma PairFollows(buf: seq<byte>, b: nat, e: nat, len: nat)
    requires |buf| == SIZE && End(buf, 0) < SIZE && SkipSpaces(buf, 0) == b < SIZE && IsAlnum(buf[b])
    requires FindEquals(buf, b) == e && b < e < SIZE && buf[e] == EQUALS && KeyEnd(buf, b, e - 1) > b
    ensures End(Ended(buf, b, e), e + 1) < SIZE
    ensures ParseTrimmed(buf, len) == ParseValue(Ended(buf, b, e), b, e)
  {
    EndLater(buf, 0, b);
  }

  /** Where the parser stopped trimming a line of which something is left. */
  lemma TrimmedWhere(buf: seq<byte>, line: seq<byte>) returns (w: nat)
    requires IsLine(line) && Holds(buf, line)
    ensures End(buf, 0) < SIZE
    ensures ParseLine(buf).0 != Skip ==>
      && 0 < w < |line| && !IsSpace(line[w - 1]) && forall i :: w <= i < |line| ==> IsSpace(line[i])
  {
    assert forall i :: 0 <= i < |line| ==> buf[i] == buf[..|line|][i] == line[i];
    EndAt(buf, 0, |line|);
    TrimEndStops(buf, |line|);
    var cut := TrimEnd(buf, |line|);
    w := cut.1 + 1;
    if IsSpace(line[cut.1]) {
      assert SkipSpaces(cut.0, 0) == 0;
    }
  }

  lemma PairLineOnlyIf(line: seq<byte>, buf: seq<byte>) returns (b: nat, k: nat, e: nat, v: nat, w: nat)
    requires IsLine(line) && Holds(buf, line) && End(buf, 0) < SIZE && ParseLine(buf).0.Pair?
    ensures PairAt(line, b, k, e, v, w)
  {
    w := TrimmedWhere(buf, line);
    TrimsTo(buf, line, w);
    var cut := TrimEnd(buf, End(buf, 0)).0;
    TrimmedPair(cut, w - 1);
    b := SkipSpaces(cut, 0);
    var parsed;
    e, parsed := PairEnds(cut, b);
    k := KeyEnd(cut, b, e - 1) + 1;
    v := if cut[e + 1] != NUL && IsSpace(cut[e + 1]) then e + 2 else e + 1;
    PairIsAt(cut, line, b, k, e, v, w);
  }

  lemma PairIsAt(buf: seq<byte>, line: seq<byte>, b: nat, k: nat, e: nat, v: nat, w: nat)
    requires TrimmedTo(buf, line, w) && 0 < w && !IsSpace(line[w - 1])
    requires forall i :: w <= i < |line| ==> IsSpace(line[i])
    requires b == SkipSpaces(buf, 0) < e < w && IsAlnum(buf[b]) && e == FindEquals(buf, b) && buf[e] == EQUALS
    requires k == KeyEnd(buf, b, e - 1) + 1 && k > b + 1
    requires v == if buf[e + 1] != NUL && IsSpace(buf[e + 1]) then e + 2 else e + 1
    ensures PairAt(line, b, k, e, v, w)
  {
  }

  /** A line that fits is a key and its value if and only if it is written as one: blanks, a key of two bytes
      or more that starts with a letter or digit, blanks, '=', the value behind one blank at most, blanks. It
      is then the key in lower case with the value, unquoted, whatever the buffer held. */
  lemma PairLineIff(line: seq<byte>, buf: seq<byte>, key: Key)
    requires IsLine(line) && Holds(buf, line)
    ensures End(buf, 0) < SIZE
    ensures ParseLine(buf).0 == Pair(key) <==>
      exists b: nat, k: nat, e: nat, v: nat, w: nat ::
        PairAt(line, b, k, e, v, w) && key == Key(Lower(line[b..k]), Bare(line[v..w]))
  {
    var _ := TrimmedWhere(buf, line);
    if ParseLine(buf).0.Pair? {
      var b, k, e, v, w := PairLineOnlyIf(line, buf);
      PairLineMeans(line, buf, b, k, e, v, w);
    }
    if b: nat, k: nat, e: nat, v: nat, w: nat :|
      PairAt(line, b, k, e, v, w) && key == Key(Lower(line[b..k]), Bare(line[v..w])) {
      PairLineMeans(line, buf, b, k, e, v, w);
    }
  }

  // Sections

  /** A bracket, blanks, the name from `v` to `w`, blanks, the closing bracket at `r`, and blanks. */
  ghost predicate HeaderAt(line: seq<byte>, v: nat, w: nat, r: nat) {
    && 1 <= v < w <= r < |line|
    && line[0] == LEFT_BRACKET && (forall i :: 1 <= i < v ==> IsSpace(line[i]))
    && !IsSpace(line[v]) && !IsSpace(line[w - 1]) && (forall i :: w <= i < r ==> IsSpace(line[i]))
    && line[r] == RIGHT_BRACKET && (forall i :: r < i < |line| ==> IsSpace(line[i]))
  }

  /** The name, once the line is trimmed. */
  lemma NameFound(buf: seq<byte>, line: seq<byte>, v: nat, w: nat, r: nat)
    requires HeaderAt(line, v, w, r) && TrimmedTo(buf, line, r + 1)
    ensures ParseHeader(buf, 0, r).0 == if w >= 3 then Header(Upper(line[v..w])) else Skip
  {
    var name := BackUp(buf, 0, r);
    if w >= 3 {
      assert name == w - 1;
      assert NameStart(buf, 0) == v;
      StringIs(buf[w := NUL], line, v, w);
    } else {
      assert name <= 1;
    }
  }

  lemma HeaderLineMeans(line: seq<byte>, buf: seq<byte>, v: nat, w: nat, r: nat)
    requires IsLine(line) && Holds(buf, line) && HeaderAt(line, v, w, r)
    ensures End(buf, 0) < SIZE && ParseLine(buf).0 == if w >= 3 then Header(Upper(line[v..w])) else Skip
  {
    TrimsTo(buf, line, r + 1);
    var cut := TrimEnd(buf, End(buf, 0)).0;
    BracketFirst(cut, r);
    NameFound(cut, line, v, w, r);
  }

  lemma HeaderLineOnlyIf(line: seq<byte>, buf: seq<byte>) returns (v: nat, w: nat, r: nat)
    requires IsLine(line) && Holds(buf, line) && End(buf, 0) < SIZE && ParseLine(buf).0.Header? && !IsSpace(line[0])
    ensures HeaderAt(line, v, w, r) && w >= 3
  {
    var end := TrimmedWhere(buf, line);
    TrimsTo(buf, line, end);
    var cut := TrimEnd(buf, End(buf, 0)).0;
    assert SkipSpaces(cut, 0) == 0;
    r := end - 1;
    BracketSeen(cut, r);
    v, w := NameStart(cut, 0), BackUp(cut, 0, r) + 1;
    HeaderIsAt(cut, line, v, w, r);
  }

  lemma HeaderIsAt(buf: seq<byte>, line: seq<byte>, v: nat, w: nat, r: nat)
    requires TrimmedTo(buf, line, r + 1) && forall i :: r < i < |line| ==> IsSpace(line[i])
    requires buf[0] == LEFT_BRACKET && buf[r] == RIGHT_BRACKET
    requires v == NameStart(buf, 0) && w == BackUp(buf, 0, r) + 1 && w >= 3
    ensures HeaderAt(line, v, w, r)
  {
    assert !IsSpace(buf[w - 1]);
    assert v < w;
  }

  lemma BracketSeen(buf: seq<byte>, len: nat)
    requires |buf| == SIZE && End(buf, 0) < SIZE && SkipSpaces(buf, 0) == 0 && ParseTrimmed(buf, len).0.Header?
    ensures len < SIZE && buf[0] == LEFT_BRACKET && buf[len] == RIGHT_BRACKET && BackUp(buf, 0, len) >= 2
  {
  }

  /** A line that fits and is not indented is a section if and only if it is written as one, with a name, or
      a blank before it, that makes two bytes. It is then the name in upper case, without the blanks around
      it, whatever the buffer held. */
  lemma HeaderLineIff(line: seq<byte>, buf: seq<byte>, id: Text)
    requires IsLine(line) && Holds(buf, line) && !IsSpace(line[0])
    ensures End(buf, 0) < SIZE
    ensures ParseLine(buf).0 == Header(id) <==>
      exists v: nat, w: nat, r: nat :: HeaderAt(line, v, w, r) && w >= 3 && id == Upper(line[v..w])
  {
    var _ := TrimmedWhere(buf, line);
    if ParseLine(buf).0.Header? {
      var v, w, r := HeaderLineOnlyIf(line, buf);
      HeaderLineMeans(line, buf, v, w, r);
    }
    if v: nat, w: nat, r: nat :| HeaderAt(line, v, w, r) && w >= 3 && id == Upper(line[v..w]) {
      HeaderLineMeans(line, buf, v, w, r);
    }
  }

  /** A chunk that does not end with a newline, because the line does not fit or the file ends, is passed
      over. */
  lemma UnendedSkipped(chunk: seq<byte>, buf: seq<byte>)
    requires Holds(buf, chunk) && NUL !in chunk && (chunk == [] || chunk[|chunk| - 1] != NEWLINE)
    ensures End(buf, 0) < SIZE && ParseLine(buf).0 == Skip
  {
    assert forall i :: 0 <= i < |chunk| ==> buf[i] == buf[..|chunk|][i] == chunk[i];
    EndAt(buf, 0, |chunk|);
  }

  // Lines in one piece

  predicate Blanks(s: seq<byte>) {
    forall i :: 0 <= i < |s| ==> IsSpace(s[i]) && s[i] != NEWLINE
  }

  /** A key as someone may write it. */
  predicate WritableKey(key: Text) {
    |key| >= 2 && Plain(key) && EQUALS !in key && IsAlnum(key[0]) && !IsSpace(key[|key| - 1])
  }

  function Written(lead: Text, key: Text, gap: Text, blank: Text, text: Text, tail: Text): seq<byte> {
    lead + key + gap + [EQUALS] + blank + text + tail + [NEWLINE]
  }

  lemma WrittenBytes(lead: Text, key: Text, gap: Text, blank: Text, text: Text, tail: Text)
    ensures var line := Written(lead, key, gap, blank, text, tail);
      var k := |lead| + |key|;
      var e := k + |gap|;
      var v := e + 1 + |blank|;
      var w := v + |text|;
      && |line| == w + |tail| + 1 && line[e] == EQUALS && line[|line| - 1] == NEWLINE
      && line[0..|lead|] == lead && line[|lead|..k] == key && line[k..e] == gap && line[e + 1..v] == blank
      && line[v..w] == text && line[w..|line| - 1] == tail
  {
  }

  lemma SliceBytes(line: seq<byte>, i: nat, j: nat)
    requires i <= j <= |line|
    ensures forall k :: i <= k < j ==> line[k] == line[i..j][k - i]
  {
  }

  /** What the parts of a written line may be. */
  predicate Writable(lead: Text, key: Text, gap: Text, blank: Text, text: Text, tail: Text) {
    && Blanks(lead) && WritableKey(key) && Blanks(gap) && Blanks(blank) && |blank| <= 1 && Blanks(tail)
    && Plain(text) && (text == [] ==> blank == []) && (text != [] ==> !IsSpace(text[|text| - 1]))
    && (text != [] && blank == [] ==> !IsSpace(text[0]))
  }

  /** What someone writes as blanks, a key, blanks, '=', one blank at most, a value without blanks at its end,
      and blanks, is that key in lower case with that value, unquoted. */
  lemma WrittenPair(lead: Text, key: Text, gap: Text, blank: Text, text: Text, tail: Text, buf: seq<byte>)
    requires Writable(lead, key, gap, blank, text, tail)
    requires Holds(buf, Written(lead, key, gap, blank, text, tail))
    ensures End(buf, 0) < SIZE && ParseLine(buf).0 == Pair(Key(Lower(key), Bare(text)))
  {
    var b, k, e, v, w := WrittenAt(lead, key, gap, blank, text, tail);
    PairLineMeans(Written(lead, key, gap, blank, text, tail), buf, b, k, e, v, w);
  }

  lemma WrittenAt(lead: Text, key: Text, gap: Text, blank: Text, text: Text, tail: Text)
    returns (b: nat, k: nat, e: nat, v: nat, w: nat)
    requires Writable(lead, key, gap, blank, text, tail) && |Written(lead, key, gap, blank, text, tail)| < SIZE
    ensures var line := Written(lead, key, gap, blank, text, tail);
      IsLine(line) && PairAt(line, b, k, e, v, w) && line[b..k] == key && line[v..w] == text
  {
    var line := Written(lead, key, gap, blank, text, tail);
    b := |lead|;
    k := b + |key|;
    e := k + |gap|;
    v := e + 1 + |blank|;
    w := v + |text|;
    WrittenBytes(lead, key, gap, blank, text, tail);
    PartsAt(line, b, k, e, v, w);
  }

  /** The same, with the parts as slices of the line. */
  lemma PartsAt(line: seq<byte>, b: nat, k: nat, e: nat, v: nat, w: nat)
    requires b <= k <= e < v <= w < |line| < SIZE && line[e] == EQUALS && line[|line| - 1] == NEWLINE
    requires Writable(line[0..b], line[b..k], line[k..e], line[e + 1..v], line[v..w], line[w..|line| - 1])
    ensures IsLine(line) && PairAt(line, b, k, e, v, w)
  {
    assert v < w ==> line[v] == line[v..w][0] && line[w - 1] == line[v..w][w - v - 1];
    PairInSlices(line, b, k, e, v, w);
    BlankSlice(line, 0, b);
    BlankSlice(line, k, e);
    BlankSlice(line, e + 1, v);
    BlankSlice(line, w, |line| - 1);
    WrittenIsLine(line, b, k, e, v, w);
  }

  lemma BlankSlice(line: seq<byte>, i: nat, j: nat)
    requires i <= j <= |line| && Blanks(line[i..j])
    ensures Plain(line[i..j]) && forall k :: i <= k < j ==> IsSpace(line[k])
  {
    SliceBytes(line, i, j);
  }

  lemma KeySlice(line: seq<byte>, b: nat, k: nat)
    requires b <= k <= |line| && WritableKey(line[b..k])
    ensures b + 2 <= k && IsAlnum(line[b]) && !IsSpace(line[k - 1]) && forall i :: b <= i < k ==> line[i] != EQUALS
  {
    SliceBytes(line, b, k);
  }

  lemma PairInSlices(line: seq<byte>, b: nat, k: nat, e: nat, v: nat, w: nat)
    requires b <= k <= e < v <= w < |line| && line[e] == EQUALS && line[|line| - 1] == NEWLINE && v <= e + 2
    requires Blanks(line[0..b]) && WritableKey(line[b..k]) && Blanks(line[k..e]) && Blanks(line[e + 1..v])
    requires Blanks(line[w..|line| - 1])
    requires v == w ==> v == e + 1
    requires v < w ==> !IsSpace(line[w - 1]) && (v == e + 1 ==> !IsSpace(line[v]))
    ensures PairAt(line, b, k, e, v, w)
  {
    BlankSlice(line, 0, b);
    KeySlice(line, b, k);
    BlankSlice(line, k, e);
    BlankSlice(line, e + 1, v);
    BlankSlice(line, w, |line| - 1);
  }

  lemma WrittenIsLine(line: seq<byte>, b: nat, k: nat, e: nat, v: nat, w: nat)
    requires b <= k <= e < v <= w < |line| < SIZE && line[|line| - 1] == NEWLINE && line[e] == EQUALS
    requires Plain(line[0..b]) && Plain(line[b..k]) && Plain(line[k..e]) && Plain(line[e + 1..v])
    requires Plain(line[v..w]) && Plain(line[w..|line| - 1])
    ensures IsLine(line)
  {
    SliceBytes(line, 0, b);
    SliceBytes(line, b, k);
    SliceBytes(line, k, e);
    SliceBytes(line, e + 1, v);
    SliceBytes(line, v, w);
    SliceBytes(line, w, |line| - 1);
  }

  /** A value in quotes, of either kind, keeps its blanks and loses its quotes. */
  lemma BareOfQuoted(quote: byte, inner: Text)
    requires IsQuote(quote)
    ensures Bare([quote] + inner + [quote]) == inner
  {
  }

  /** A value that is not in quotes is left alone. */
  lemma BareOfPlain(text: Text)
    requires text == [] || !IsQuote(text[0]) || text[|text| - 1] != text[0]
    ensures Bare(text) == text
  {
  }

  /** What someone writes as a name in brackets, with blanks around it, is a section of that name in upper
      case, unless the name is one byte right behind the bracket. */
  lemma WrittenHeader(before: Text, name: Text, after: Text, tail: Text, buf: seq<byte>)
    requires Blanks(before) && Blanks(after) && Blanks(tail)
    requires name != [] && Plain(name) && !IsSpace(name[0]) && !IsSpace(name[|name| - 1])
    requires Holds(buf, [LEFT_BRACKET] + before + name + after + [RIGHT_BRACKET] + tail + [NEWLINE])
    ensures End(buf, 0) < SIZE
    ensures ParseLine(buf).0 == if |before| + |name| >= 2 then Header(Upper(name)) else Skip
  {
    var line := [LEFT_BRACKET] + before + name + after + [RIGHT_BRACKET] + tail + [NEWLINE];
    var v := 1 + |before|;
    var w := v + |name|;
    var r := w + |after|;
    assert line[1..v] == before && line[v..w] == name && line[w..r] == after && line[r + 1..|line| - 1] == tail;
    assert line[v] == name[0] && line[w - 1] == name[|name| - 1];
    HeaderInSlices(line, v, w, r);
    HeaderLineMeans(line, buf, v, w, r);
  }

  lemma HeaderInSlices(line: seq<byte>, v: nat, w: nat, r: nat)
    requires 1 <= v < w <= r < |line| - 1 && |line| < SIZE
    requires line[0] == LEFT_BRACKET && line[r] == RIGHT_BRACKET && line[|line| - 1] == NEWLINE
    requires Blanks(line[1..v]) && Plain(line[v..w]) && Blanks(line[w..r]) && Blanks(line[r + 1..|line| - 1])
    requires !IsSpace(line[v]) && !IsSpace(line[w - 1])
    ensures IsLine(line) && HeaderAt(line, v, w, r)
  {
    BlankSlice(line, 1, v);
    BlankSlice(line, w, r);
    BlankSlice(line, r + 1, |line| - 1);
    SliceBytes(line, 1, v);
    SliceBytes(line, v, w);
    SliceBytes(line, w, r);
    SliceBytes(line, r + 1, |line| - 1);
  }

  // Files

  /** The line means this whatever the buffer held. */
  ghost predicate Means(line: seq<byte>, meaning: Line) {
    IsLine(line) && !meaning.Undefined? && forall buf :: Holds(buf, line) ==> LineOf(buf) == meaning
  }

  function Joined(lines: seq<seq<byte>>): seq<byte> {
    if lines == [] then [] else lines[0] + Joined(lines[1..])
  }

  /** A file loads as its lines mean, one after the other. */
  lemma {:induction false} FileMeans(lines: seq<seq<byte>>, meanings: seq<Line>, buf: seq<byte>, store: seq<Section>)
    requires |lines| == |meanings| && |buf| == SIZE && store != []
    requires forall i :: 0 <= i < |lines| ==> Means(lines[i], meanings[i])
    ensures LoadLines(Joined(lines), buf, store) == Loaded(Build(store, meanings))
    decreases |lines|
  {
    if lines != [] {
      var rest := Joined(lines[1..]);
      var buf1 := GetsLine(lines[0], rest, buf);
      var buf2 := LoadOne(lines[0], rest, buf, store, buf1);
      assert Means(lines[0], meanings[0]);
      assert LineOf(buf1) == meanings[0];
      FileMeans(lines[1..], meanings[1..], buf2, Extend(store, meanings[0]));
    }
  }
}
