/** The keyfile format of src/keyfile.c: what one line means to the parser, and what a whole file loads as.

  A line is read into a buffer of 96 bytes that is never cleared, so the functions below take and give
  the whole buffer. `Undefined` stands for a read past its end.
 */
module Keyfile {
  import opened Bytes

  const SIZE := 96

  type Text = seq<byte>

  datatype Key = Key(id: Text, value: Text)

  datatype Section = Section(id: Text, keys: seq<Key>)

  datatype Line = Skip | Header(id: Text) | Pair(key: Key) | Undefined

  datatype Outcome = Loaded(store: seq<Section>) | Failed

  /** src/strchar.c:61-91 with the limit every caller here passes. */
  function Upper(s: Text): (u: Text) {
    var n := if |s| < 32 then |s| else 32;
    seq(n, i requires 0 <= i < n => ToUpper(s[i]))
  }

  function Lower(s: Text): (l: Text) {
    var n := if |s| < 32 then |s| else 32;
    seq(n, i requires 0 <= i < n => ToLower(s[i]))
  }

  // The loops of the line parser. Positions are offsets into the buffer.

  /** src/keyfile.c:73-74: blanks the end of the line; the position left is that of its last byte. */
  function TrimEnd(buf: seq<byte>, len: nat): (r: (seq<byte>, nat))
    requires len <= |buf|
    ensures |r.0| == |buf| && r.1 <= len
    ensures r.0[len..] == buf[len..]
    decreases len
  {
    if len == 0 then (buf, 0)
    else if IsSpace(buf[len - 1]) then
      var r := TrimEnd(buf[len - 1 := NUL], len - 1);
      assert r.0[len..] == r.0[len - 1..][1..];
      r
    else (buf, len - 1)
  }

  /** src/keyfile.c:76-77 */
  function SkipSpaces(buf: seq<byte>, i: nat): (r: nat)
    requires i <= |buf|
    ensures i <= r <= |buf|
    ensures forall j :: i <= j < r ==> buf[j] != NUL && IsSpace(buf[j])
    ensures r < |buf| ==> buf[r] == NUL || !IsSpace(buf[r])
    decreases |buf| - i
  {
    if i < |buf| && buf[i] != NUL && IsSpace(buf[i]) then SkipSpaces(buf, i + 1) else i
  }

  /** src/keyfile.c:81-82, `len` counted from `at`. */
  function BackUp(buf: seq<byte>, at: nat, len: nat): (r: nat)
    requires at + len <= |buf|
    ensures r <= len
    ensures len > 1 ==> r < len
    ensures r > 1 ==> !IsSpace(buf[at + r])
    ensures len > 1 ==> forall j :: at + r < j < at + len ==> IsSpace(buf[j])
    decreases len
  {
    if len <= 1 then len
    else if IsSpace(buf[at + len - 1]) then BackUp(buf, at, len - 1)
    else len - 1
  }

  /** src/keyfile.c:85-86: where the name starts after the bracket at `at`. */
  function NameStart(buf: seq<byte>, at: nat): (r: nat)
    requires at < |buf|
    ensures at < r <= |buf|
    ensures forall j :: at < j < r ==> IsSpace(buf[j])
    ensures r < |buf| ==> !IsSpace(buf[r])
    decreases |buf| - at
  {
    if at + 1 < |buf| && IsSpace(buf[at + 1]) then NameStart(buf, at + 1) else at + 1
  }

  /** src/keyfile.c:95-96 */
  function FindEquals(buf: seq<byte>, i: nat): (r: nat)
    requires i <= |buf|
    ensures i <= r <= |buf|
    ensures forall j :: i <= j < r ==> buf[j] != NUL && buf[j] != EQUALS
    ensures r < |buf| ==> buf[r] == NUL || buf[r] == EQUALS
    decreases |buf| - i
  {
    if i < |buf| && buf[i] != NUL && buf[i] != EQUALS then FindEquals(buf, i + 1) else i
  }

  /** src/keyfile.c:99-101 */
  function KeyEnd(buf: seq<byte>, from: nat, at: nat): (r: nat)
    requires from <= at < |buf|
    ensures from <= r <= at
    ensures r > from ==> !IsSpace(buf[r])
    ensures forall j :: r < j <= at ==> IsSpace(buf[j])
    decreases at
  {
    if at > from && IsSpace(buf[at]) then KeyEnd(buf, from, at - 1) else at
  }

  /** src/keyfile.c:81-89 for the bracket at `at`, the line's last byte at `at + len`. */
  function ParseHeader(buf: seq<byte>, at: nat, len: nat): (Line, seq<byte>)
    requires at + len < |buf|
  {
    var name := BackUp(buf, at, len);
    if name < 2 then (Skip, buf)
    else
      var start := NameStart(buf, at);
      var buf' := buf[at + 1 + name := NUL];
      (Header(Upper(CString(buf', start))), buf')
  }

  /** src/keyfile.c:105-112 for the value that starts at `body`: where it starts once unquoted. */
  function Unquote(buf: seq<byte>, body: nat): (r: (nat, seq<byte>))
    requires body < |buf|
    ensures r.0 <= |buf| == |r.1|
  {
    var n := Length(buf, body, SIZE);
    if (buf[body] == SINGLE_QUOTE || buf[body] == DOUBLE_QUOTE) && buf[body + n - 1] == buf[body] then
      var buf' := buf[body + n - 1 := NUL];
      (if buf'[body] != NUL then body + 1 else body, buf')
    else (body, buf)
  }

  /** src/keyfile.c:104-113: the key starts at `at` and has been ended, the value follows the '=' at `eq`. */
  function ParseValue(buf: seq<byte>, at: nat, eq: nat): (r: (Line, seq<byte>))
    requires at < eq < |buf| - 1 && End(buf, eq + 1) < |buf|
    ensures r.0.Pair?
  {
    var body := if buf[eq + 1] != NUL && IsSpace(buf[eq + 1]) then eq + 2 else eq + 1;
    var bare := Unquote(buf, body);
    (Pair(Key(Lower(CString(bare.1, at)), CString(bare.1, bare.0))), bare.1)
  }

  /** src/keyfile.c:98-103: the key ended behind its last byte that is no space. */
  function Ended(buf: seq<byte>, at: nat, eq: nat): (r: seq<byte>)
    requires at < eq < |buf|
    ensures |r| == |buf|
    ensures eq < End(buf, at) < |buf| ==> End(r, eq + 1) < |buf|
  {
    var r := buf[KeyEnd(buf, at, eq - 1) + 1 := NUL];
    assert eq < End(buf, at) < |buf| ==> r[End(buf, at)] == NUL;
    r
  }

  /** src/keyfile.c:98-113 for the key between `at` and the '=' at `eq`. */
  function ParseKey(buf: seq<byte>, at: nat, eq: nat): (r: (Line, seq<byte>))
    requires at < eq < |buf| && eq < End(buf, at) < |buf|
    ensures r.0.Pair? || r.0.Skip?
  {
    if KeyEnd(buf, at, eq - 1) == at then (Skip, buf) else ParseValue(Ended(buf, at, eq), at, eq)
  }

  /** src/keyfile.c:94-113 for the key that starts at `at`. */
  function ParsePair(buf: seq<byte>, at: nat): (r: (Line, seq<byte>))
    requires at < |buf| && End(buf, at) < |buf|
    ensures r.0.Pair? || r.0.Skip?
  {
    var eq := FindEquals(buf, at);
    assert eq <= End(buf, at) && (buf[eq] != NUL ==> eq < End(buf, at));
    if eq == at || buf[eq] == NUL then (Skip, buf) else ParseKey(buf, at, eq)
  }

  /** src/keyfile.c:76-114 on a line trimmed at its end, its last byte at `len`. */
  function ParseTrimmed(buf: seq<byte>, len: nat): (Line, seq<byte>)
    requires |buf| == SIZE && End(buf, 0) < SIZE
  {
    var at := SkipSpaces(buf, 0);
    assert at <= End(buf, 0) && End(buf, at) <= End(buf, 0);
    if buf[at] == NUL then (Skip, buf)
    else if buf[at] == LEFT_BRACKET then
      if at + len >= SIZE then (Undefined, buf)
      else if buf[at + len] == RIGHT_BRACKET then ParseHeader(buf, at, len)
      else (Skip, buf)
    else if !IsAlnum(buf[at]) then (Skip, buf)
    else ParsePair(buf, at)
  }

  /** src/keyfile.c:71-114 on a buffer just filled by fgets. */
  function ParseLine(buf: seq<byte>): (Line, seq<byte>)
    requires |buf| == SIZE && End(buf, 0) < SIZE
  {
    var n := End(buf, 0);
    if n == 0 || buf[n - 1] != NEWLINE then (Skip, buf)
    else
      var cut := TrimEnd(buf, n);
      assert cut.0[n] == cut.0[n..][0] == buf[n..][0] == NUL;
      ParseTrimmed(cut.0, cut.1)
  }

  // Files

  /** How many bytes fgets takes: up to a newline, never more than the buffer holds beside its NUL. */
  function ChunkLength(rest: seq<byte>, n: nat): (r: nat)
    requires n < SIZE && n <= |rest|
    ensures n <= r < SIZE && r <= |rest|
    ensures forall j :: n <= j < r - 1 ==> rest[j] != NEWLINE
    ensures r > n && r < SIZE - 1 && r < |rest| ==> rest[r - 1] == NEWLINE
    decreases |rest| - n
  {
    if n == SIZE - 1 || n == |rest| then n
    else if rest[n] == NEWLINE then n + 1
    else ChunkLength(rest, n + 1)
  }

  function Gets(rest: seq<byte>, buf: seq<byte>): (seq<byte>, seq<byte>)
    requires |buf| == SIZE
  {
    var n := ChunkLength(rest, 0);
    (rest[..n] + [NUL] + buf[n + 1..], rest[n..])
  }

  /** make_keysection and make_keydata: sections are appended, keys put in front. */
  function Extend(store: seq<Section>, line: Line): seq<Section>
    requires store != []
  {
    match line
    case Header(id) => store + [Section(id, [])]
    case Pair(key) =>
      var last := store[|store| - 1];
      store[|store| - 1 := last.(keys := [key] + last.keys)]
    case _ => store
  }
}
