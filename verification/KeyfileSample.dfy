/** Two sections of the keyfile that the repository's own test reads (test/test.conf:7-14) and what the test
  finds in them (test/keyfile.c:11-16).
 */
module KeyfileSample {
  import opened Bytes
  import opened Keyfile
  import opened KeyfileRoundTrip
  import opened KeyfileExact
  import opened KeyfileBuffer
  import opened KeyfileMeaning
  import opened KeyfileInPlace

  /** Letters and digits. */
  predicate Word(s: Text) {
    s != [] && forall i :: 0 <= i < |s| ==> IsAlnum(s[i])
  }

  /** `key = value` with one blank on either side of the '='. */
  function Setting(key: Text, value: Text): seq<byte> {
    Written([], key, [SPACE], [SPACE], value, [])
  }

  lemma SettingMeans(key: Text, value: Text)
    requires |key| >= 2 && Word(key) && value != [] && Plain(value) && !IsSpace(value[|value| - 1])
    requires |key| + |value| + 4 < SIZE
    ensures Means(Setting(key, value), Pair(Key(Lower(key), Bare(value))))
  {
    var line := Setting(key, value);
    assert IsLine(line);
    forall buf | Holds(buf, line)
      ensures LineOf(buf) == Pair(Key(Lower(key), Bare(value)))
    {
      WrittenPair([], key, [SPACE], [SPACE], value, [], buf);
    }
  }

  /** `[ name ]`, with the blanks or without. */
  function Heading(before: Text, name: Text, after: Text): seq<byte> {
    [LEFT_BRACKET] + before + name + after + [RIGHT_BRACKET] + [] + [NEWLINE]
  }

  lemma HeadingMeans(before: Text, name: Text, after: Text)
    requires Blanks(before) && Word(name) && Blanks(after) && |before| + |name| >= 2
    requires |before| + |name| + |after| + 3 < SIZE
    ensures Means(Heading(before, name, after), Header(Upper(name)))
  {
    var line := Heading(before, name, after);
    assert IsLine(line);
    forall buf | Holds(buf, line)
      ensures LineOf(buf) == Header(Upper(name))
    {
      WrittenHeader(before, name, after, [], buf);
    }
  }

  lemma EmptyLineMeans()
    ensures Means([NEWLINE], Skip)
  {
    forall buf | Holds(buf, [NEWLINE])
      ensures LineOf(buf) == Skip
    {
      var w := TrimmedWhere(buf, [NEWLINE]);
    }
  }

  /** "coMMon" */
  const CO_M_MON: Text := [99, 111, 77, 77, 111, 110]

  /** "COMMON" */
  const COMMON: Text := [67, 79, 77, 77, 79, 78]

  /** "password" */
  const PASSWORD: Text := [112, 97, 115, 115, 119, 111, 114, 100]

  /** "test" */
  const TEST: Text := [116, 101, 115, 116]

  /** "shEll" */
  const SH_ELL: Text := [115, 104, 69, 108, 108]

  /** "shell" */
  const SHELL: Text := [115, 104, 101, 108, 108]

  /** " hello command and a space " */
  const HELLO: Text :=
    [32, 104, 101, 108, 108, 111, 32, 99, 111, 109, 109, 97, 110, 100,
     32, 97, 110, 100, 32, 97, 32, 115, 112, 97, 99, 101, 32]

  /** "10" */
  const TEN: Text := [49, 48]

  /** "name" */
  const NAME: Text := [110, 97, 109, 101]

  /** "user0" */
  const USER0: Text := [117, 115, 101, 114, 48]

  /** "id" */
  const ID: Text := [105, 100]

  /** "userid" */
  const USERID: Text := [117, 115, 101, 114, 105, 100]

  /** "secret" */
  const SECRET: Text := [115, 101, 99, 114, 101, 116]

  /** "none" */
  const NONE: Text := [110, 111, 110, 101]

  /** "XXX" */
  const XXX: Text := [88, 88, 88]

  lemma Folded()
    ensures Word(CO_M_MON) && Upper(CO_M_MON) == COMMON && Word(TEN) && Upper(TEN) == TEN
    ensures Word(SH_ELL) && Lower(SH_ELL) == SHELL && Word(ID) && Lower(ID) == ID
  {
  }

  lemma AlreadyFolded()
    ensures Word(PASSWORD) && Lower(PASSWORD) == PASSWORD && Word(NAME) && Lower(NAME) == NAME
    ensures Word(SECRET) && Lower(SECRET) == SECRET
  {
  }

  lemma ValuesPlain()
    ensures Plain(TEST) && Plain(USER0) && Plain(USERID) && Plain(NONE)
    ensures Bare(TEST) == TEST && Bare(USER0) == USER0 && Bare(USERID) == USERID && Bare(NONE) == NONE
  {
  }

  lemma HelloPlain()
    ensures var quoted := [DOUBLE_QUOTE] + HELLO + [DOUBLE_QUOTE]; Plain(quoted) && Bare(quoted) == HELLO
  {
    BareOfQuoted(DOUBLE_QUOTE, HELLO);
  }

  function Lines(): seq<seq<byte>> {
    [Heading([SPACE], CO_M_MON, []), Setting(PASSWORD, TEST), Setting(SH_ELL, [DOUBLE_QUOTE] + HELLO + [DOUBLE_QUOTE]),
     [NEWLINE],
     Heading([SPACE], TEN, [SPACE]), Setting(NAME, USER0), Setting(ID, USERID), Setting(SECRET, NONE)]
  }

  function Meanings(): seq<Line> {
    [Header(COMMON), Pair(Key(PASSWORD, TEST)), Pair(Key(SHELL, HELLO)),
     Skip,
     Header(TEN), Pair(Key(NAME, USER0)), Pair(Key(ID, USERID)), Pair(Key(SECRET, NONE))]
  }

  lemma LinesMean()
    ensures |Lines()| == |Meanings()| && forall i :: 0 <= i < |Lines()| ==> Means(Lines()[i], Meanings()[i])
  {
    Folded();
    AlreadyFolded();
    ValuesPlain();
    HelloPlain();
    HeadingMeans([SPACE], CO_M_MON, []);
    SettingMeans(PASSWORD, TEST);
    SettingMeans(SH_ELL, [DOUBLE_QUOTE] + HELLO + [DOUBLE_QUOTE]);
    EmptyLineMeans();
    HeadingMeans([SPACE], TEN, [SPACE]);
    SettingMeans(NAME, USER0);
    SettingMeans(ID, USERID);
    SettingMeans(SECRET, NONE);
  }

  function Sections(): seq<Section> {
    [ROOT,
     Section(COMMON, [Key(SHELL, HELLO), Key(PASSWORD, TEST)]),
     Section(TEN, [Key(SECRET, NONE), Key(ID, USERID), Key(NAME, USER0)])]
  }

  lemma SampleBuilt()
    ensures Build([ROOT], Meanings()) == Sections()
  {
    var m := Meanings();
    var front := [ROOT] + [Section(COMMON, [Key(SHELL, HELLO)] + ([Key(PASSWORD, TEST)] + []))];
    HeaderFirst([ROOT], m);
    PairFirst([ROOT], COMMON, [], m[1..]);
    PairFirst([ROOT], COMMON, [Key(PASSWORD, TEST)] + [], m[1..][1..]);
    assert Build(front, m[1..][1..][1..]) == Build(front, m[1..][1..][1..][1..]);
    HeaderFirst(front, m[1..][1..][1..][1..]);
    var rest := m[1..][1..][1..][1..][1..];
    PairFirst(front, TEN, [], rest);
    PairFirst(front, TEN, [Key(NAME, USER0)] + [], rest[1..]);
    PairFirst(front, TEN, [Key(ID, USERID)] + ([Key(NAME, USER0)] + []), rest[1..][1..]);
    assert rest[1..][1..][1..] == [];
    var common := [Key(SHELL, HELLO)] + ([Key(PASSWORD, TEST)] + []);
    var ten := [Key(SECRET, NONE)] + ([Key(ID, USERID)] + ([Key(NAME, USER0)] + []));
    assert common == [Key(SHELL, HELLO), Key(PASSWORD, TEST)];
    assert ten == [Key(SECRET, NONE), Key(ID, USERID), Key(NAME, USER0)];
    assert [ROOT] + [Section(COMMON, common)] + [Section(TEN, ten)] == Sections();
  }

  lemma HeaderFirst(store: seq<Section>, items: seq<Line>)
    requires store != [] && items != [] && items[0].Header?
    ensures Build(store, items) == Build(store + [Section(items[0].id, [])], items[1..])
  {
  }

  lemma PairFirst(front: seq<Section>, id: Text, keys: seq<Key>, items: seq<Line>)
    requires items != [] && items[0].Pair?
    ensures Build(front + [Section(id, keys)], items) == Build(front + [Section(id, [items[0].key] + keys)], items[1..])
  {
    var store := front + [Section(id, keys)];
    assert Extend(store, items[0]) == front + [Section(id, [items[0].key] + keys)];
  }

  /** The sample loads as two sections beside the one every load starts with, names in upper case and keys in
      lower case, and the test finds what it looks for, whatever the line buffer held. */
  lemma SampleLoads(buf: seq<byte>)
    requires |buf| == SIZE
    ensures Load(Joined(Lines()), buf) == Loaded(Sections())
    ensures SectionAt(Sections(), TEN) == 2 && SectionAt(Sections(), CO_M_MON) == 1
    ensures ValueOf(Sections()[2].keys, ID) == Value(USERID) && ValueOf(Sections()[2].keys, SECRET) == Value(NONE)
    ensures ValueOf(Sections()[2].keys, XXX) == Missing
  {
    LinesMean();
    FileMeans(Lines(), Meanings(), buf, [ROOT]);
    SampleBuilt();
    Lookups();
  }

  lemma Lookups()
    ensures SectionAt(Sections(), TEN) == 2 && SectionAt(Sections(), CO_M_MON) == 1
    ensures ValueOf(Sections()[2].keys, ID) == Value(USERID) && ValueOf(Sections()[2].keys, SECRET) == Value(NONE)
    ensures ValueOf(Sections()[2].keys, XXX) == Missing
  {
    assert Sections()[0].id == [STAR] && !SameFolded(TEN, [STAR]);
    assert Sections()[1].id == COMMON && !SameFolded(TEN, COMMON);
    assert Sections()[2].id == TEN && SameFolded(TEN, TEN);
    assert !SameFolded(CO_M_MON, [STAR]) && SameFolded(CO_M_MON, COMMON);
    var keys := Sections()[2].keys;
    assert keys[0].id == SECRET && keys[1].id == ID && keys[2].id == NAME;
    assert |XXX| == 3 && |SECRET| == 6 && |ID| == 2 && |NAME| == 4;
  }
}
