/** The operation list and dataset files, written with << and read back with >> and getline. */
module TextFiles {
  import opened Common
  import Decimal

  // ---------------------------------------------------------------- formatted input

  predicate IsSpace(c: char) {
    c == ' ' || c == '\t' || c == '\n' || c == '\r' || c == 11 as char || c == 12 as char
  }

  /** The space, and the five control characters from tab to carriage return. */
  lemma SpacesAre(c: char)
    ensures IsSpace(c) <==> c == ' ' || 9 <= c as int <= 13
  {
  }

  predicate NoSpaces(s: string) { forall i :: 0 <= i < |s| ==> !IsSpace(s[i]) }

  function SkipSpaces(s: string): (r: string)
    ensures |r| <= |s| && (r != [] ==> !IsSpace(r[0]))
  {
    if s != [] && IsSpace(s[0]) then SkipSpaces(s[1..]) else s
  }

  /** The length of the longest prefix without spaces. */
  function WordLength(s: string): (n: nat)
    ensures n <= |s| && NoSpaces(s[..n]) && (n < |s| ==> IsSpace(s[n]))
    ensures s != [] && !IsSpace(s[0]) ==> n > 0
  {
    if s == [] || IsSpace(s[0]) then 0
    else
      var n := 1 + WordLength(s[1..]);
      assert forall i :: 0 < i < n ==> s[i] == s[1..][i - 1];
      n
  }

  /** What an extraction leaves: the value and the rest of the stream, or failure. */
  datatype Extract<T> = Got(value: T, rest: string) | Failed

  /** >> into a std::string. */
  function ReadWord(s: string): (r: Extract<string>)
    ensures r.Got? ==> r.value != [] && NoSpaces(r.value) && |r.rest| < |s|
  {
    var t := SkipSpaces(s);
    if t == [] then Failed else Got(t[..WordLength(t)], t[WordLength(t)..])
  }

  /** >> into a char. */
  function ReadChar(s: string): (r: Extract<char>)
    ensures r.Got? ==> !IsSpace(r.value) && |r.rest| < |s|
  {
    var t := SkipSpaces(s);
    if t == [] then Failed else Got(t[0], t[1..])
  }

  predicate IsInt(n: int) { -0x8000_0000 <= n < 0x8000_0000 }

  function DigitsLength(s: string): (n: nat)
    ensures n <= |s| && (forall i :: 0 <= i < n ==> Decimal.IsDigit(s[i])) && (n < |s| ==> !Decimal.IsDigit(s[n]))
  {
    if s == [] || !Decimal.IsDigit(s[0]) then 0 else 1 + DigitsLength(s[1..])
  }

  function Signed(n: nat, negative: bool): (v: int) { (if negative then -1 else 1) * n }

  /** The digits of an int after its sign; a value that does not fit fails. */
  function ReadDigits(d: string, negative: bool): (r: Extract<int>)
    ensures r.Got? ==> IsInt(r.value) && |r.rest| < |d|
  {
    var n := DigitsLength(d);
    if n == 0 then Failed
    else
      var value := Signed(Decimal.ToNat(d[..n]), negative);
      if IsInt(value) then Got(value, d[n..]) else Failed
  }

  /** >> into an int: an optional sign, then digits. */
  function ReadInt(s: string): (r: Extract<int>)
    ensures r.Got? ==> IsInt(r.value) && |r.rest| < |s|
  {
    var t := SkipSpaces(s);
    if t != [] && (t[0] == '-' || t[0] == '+') then ReadDigits(t[1..], t[0] == '-') else ReadDigits(t, false)
  }

  // ---------------------------------------------------------------- the operation list

  datatype Operation = Operation(key: string, node: int, op: char)

  function IntText(n: int): (s: string) { if n < 0 then "-" + Decimal.ToText(-n) else Decimal.ToText(n) }

  function Line(o: Operation): (s: string) { o.key + " " + IntText(o.node) + " " + [o.op] + "\n" }

  function Dump(ops: seq<Operation>): (s: string) {
    if ops == [] then "" else Line(ops[0]) + Dump(ops[1..])
  }

  function ReadOperation(s: string): (r: Extract<Operation>)
    ensures r.Got? ==> Loadable(r.value) && |r.rest| < |s|
  {
    var key := ReadWord(s);
    if key.Failed? then Failed else
    var node := ReadInt(key.rest);
    if node.Failed? then Failed else
    var op := ReadChar(node.rest);
    if op.Failed? then Failed else Got(Operation(key.value, node.value, op.value), op.rest)
  }

  function Load(s: string): (ops: seq<Operation>)
    decreases |s|
  {
    var first := ReadOperation(s);
    if first.Failed? then [] else [first.value] + Load(first.rest)
  }

  /** An operation a file line can carry. */
  predicate Loadable(o: Operation) {
    o.key != [] && NoSpaces(o.key) && IsInt(o.node) && !IsSpace(o.op)
  }

  /** dumpOperationSetToFile. */
  method DumpOperationSetToFile(ops: seq<Operation>) returns (file: string)
    ensures file == Dump(ops)
  {
    file := "";
    assert file + Dump(ops) == Dump(ops);
    for i := 0 to |ops|
      invariant file + Dump(ops[i..]) == Dump(ops)
    {
      assert ops[i..][1..] == ops[i + 1..];
      assert file + (Line(ops[i]) + Dump(ops[i + 1..])) == (file + Line(ops[i])) + Dump(ops[i + 1..]);
      file := file + Line(ops[i]);
    }
    assert file + "" == file;
  }

  /** Loading one more operation moves it from the file to the list. */
  lemma LoadStep(ops: seq<Operation>, s: string)
    ensures match ReadOperation(s)
            case Failed => ops + Load(s) == ops
            case Got(o, rest) => ops + Load(s) == (ops + [o]) + Load(rest)
  {
  }

  /** loadOperationSetFromFile; a file that cannot be opened loads as an empty list. */
  method LoadOperationSetFromFile(file: Option<string>) returns (ops: seq<Operation>)
    ensures ops == if file.None? then [] else Load(file.value)
  {
    hide ReadOperation, Load, Loadable;
    ops := [];
    if file.None? {
      return;
    }
    var rest := file.value;
    var more := true;
    while more
      invariant if more then ops + Load(rest) == Load(file.value) else ops == Load(file.value)
      decreases |rest|, more
    {
      LoadStep(ops, rest);
      match ReadOperation(rest)
      case Failed => more := false;
      case Got(o, tail) =>
        ops := ops + [o];
        rest := tail;
    }
  }

  // ---------------------------------------------------------------- round trip

  lemma {:induction false} WordThenSpace(w: string, tail: string)
    requires NoSpaces(w) && tail != [] && IsSpace(tail[0])
    ensures WordLength(w + tail) == |w|
  {
    if w == [] {
      assert w + tail == tail;
    } else {
      WordThenSpace(w[1..], tail);
      assert (w + tail)[1..] == w[1..] + tail;
    }
  }

  lemma {:induction false} DigitsThenOther(d: string, tail: string)
    requires (forall c :: c in d ==> Decimal.IsDigit(c)) && (tail != [] ==> !Decimal.IsDigit(tail[0]))
    ensures DigitsLength(d + tail) == |d|
  {
    if d == [] {
      assert d + tail == tail;
    } else {
      DigitsThenOther(d[1..], tail);
      assert (d + tail)[1..] == d[1..] + tail;
    }
  }

  lemma ReadWordBack(w: string, tail: string)
    requires w != [] && NoSpaces(w) && tail != [] && IsSpace(tail[0])
    ensures ReadWord(w + tail) == Got(w, tail)
  {
    WordThenSpace(w, tail);
    assert SkipSpaces(w + tail) == w + tail;
    assert (w + tail)[..|w|] == w && (w + tail)[|w|..] == tail;
  }

  lemma ReadDigitsBack(n: nat, negative: bool, tail: string)
    requires IsInt(Signed(n, negative)) && tail != [] && IsSpace(tail[0])
    ensures ReadDigits(Decimal.ToText(n) + tail, negative) == Got(Signed(n, negative), tail)
  {
    var digits := Decimal.ToText(n);
    DigitsThenOther(digits, tail);
    Decimal.ReadsBack(n);
    assert (digits + tail)[..|digits|] == digits && (digits + tail)[|digits|..] == tail;
  }

  lemma ReadIntBack(n: int, tail: string)
    requires IsInt(n) && tail != [] && IsSpace(tail[0])
    ensures ReadInt(" " + IntText(n) + tail) == Got(n, tail)
  {
    hide ReadDigits, Decimal.ToText;
    var t := IntText(n) + tail;
    var digits := Decimal.ToText(if n < 0 then -n else n);
    assert Decimal.IsDigit(digits[0]);
    assert (" " + IntText(n) + tail)[1..] == t;
    assert SkipSpaces(" " + IntText(n) + tail) == t;
    if n < 0 {
      assert t[1..] == digits + tail;
      ReadDigitsBack(-n, true, tail);
    } else {
      ReadDigitsBack(n, false, tail);
    }
  }

  lemma ReadCharBack(c: char, tail: string)
    requires !IsSpace(c)
    ensures ReadChar(" " + [c] + tail) == Got(c, tail)
  {
    var s := " " + [c] + tail;
    assert s[1..] == [c] + tail;
    assert SkipSpaces(s) == [c] + tail;
  }

  lemma LeadingNewline(s: string)
    ensures ReadOperation("\n" + s) == ReadOperation(s)
  {
    assert ("\n" + s)[1..] == s;
    assert SkipSpaces("\n" + s) == SkipSpaces(s);
  }

  lemma ReadLineBack(o: Operation, tail: string)
    requires Loadable(o)
    ensures ReadOperation(Line(o) + tail) == Got(o, "\n" + tail)
  {
    var afterOp := "\n" + tail;
    var afterNode := " " + [o.op] + afterOp;
    var afterKey := " " + IntText(o.node) + afterNode;
    assert Line(o) + tail == o.key + afterKey;
    ReadWordBack(o.key, afterKey);
    ReadIntBack(o.node, afterNode);
    ReadCharBack(o.op, afterOp);
  }

  lemma LoadIgnoresNewline(s: string)
    ensures Load("\n" + s) == Load(s)
  {
    LeadingNewline(s);
  }

  lemma {:induction false} LoadsBack(ops: seq<Operation>)
    requires forall i :: 0 <= i < |ops| ==> Loadable(ops[i])
    ensures Load(Dump(ops)) == ops
  {
    if ops == [] {
      assert ReadWord("").Failed?;
    } else {
      ReadLineBack(ops[0], Dump(ops[1..]));
      LoadsBack(ops[1..]);
      LoadIgnoresNewline(Dump(ops[1..]));
    }
  }

  lemma LoadOneMore(o: Operation, rest: string)
    requires Loadable(o)
    ensures Load(Line(o) + rest) == [o] + Load(rest)
  {
    ReadLineBack(o, rest);
    LoadIgnoresNewline(rest);
    hide ReadOperation, Line, Loadable;
  }

  /** A dumped list, followed by anything, loads as the list and what loads of the rest. */
  lemma {:induction false} DumpThenTail(ops: seq<Operation>, tail: string)
    requires forall i :: 0 <= i < |ops| ==> Loadable(ops[i])
    ensures Load(Dump(ops) + tail) == ops + Load(tail)
  {
    hide ReadOperation, Loadable, Load, Line;
    if ops == [] {
      assert Dump(ops) + tail == tail && ops + Load(tail) == Load(tail);
    } else {
      var rest := Dump(ops[1..]) + tail;
      assert Dump(ops) + tail == Line(ops[0]) + rest;
      LoadOneMore(ops[0], rest);
      DumpThenTail(ops[1..], tail);
      assert ops + Load(tail) == [ops[0]] + (ops[1..] + Load(tail));
    }
  }

  /**
   * The list ends at the first line that lacks a key, a number in range after it, or an operation character
   * after that; whatever comes later is not read.
   */
  lemma LoadStopsAtTheFirstBadLine(ops: seq<Operation>, bad: string)
    requires forall i :: 0 <= i < |ops| ==> Loadable(ops[i])
    requires
      || ReadWord(bad).Failed?
      || ReadInt(ReadWord(bad).rest).Failed?
      || ReadChar(ReadInt(ReadWord(bad).rest).rest).Failed?
    ensures Load(Dump(ops) + bad) == ops
  {
    DumpThenTail(ops, bad);
    hide ReadWord, ReadInt, ReadChar;
    assert Load(bad) == [];
  }

  lemma {:induction false} LoadedIsLoadable(s: string)
    ensures forall i :: 0 <= i < |Load(s)| ==> Loadable(Load(s)[i])
    decreases |s|
  {
    var first := ReadOperation(s);
    if first.Got? { LoadedIsLoadable(first.rest); }
  }

  /** A dumped list loads back as it was if and only if every operation fits a line. */
  lemma LoadsBackExactlyWhenLoadable(ops: seq<Operation>)
    ensures Load(Dump(ops)) == ops <==> forall i :: 0 <= i < |ops| ==> Loadable(ops[i])
  {
    LoadedIsLoadable(Dump(ops));
    if forall i :: 0 <= i < |ops| ==> Loadable(ops[i]) { LoadsBack(ops); }
  }

  // ---------------------------------------------------------------- the dataset

  function Row(i: nat, value: string): (s: string) { Decimal.ToText(i) + " " + value + "\n" }

  /** Rows lo..n. */
  function Rows(lo: nat, n: int, value: string): (s: string)
    decreases n + 1 - lo
  {
    if lo > n then "" else Row(lo, value) + Rows(lo + 1, n, value)
  }

  /** createAndWriteDataset: one row per key, all with the same value of upper-case letters. */
  method CreateAndWriteDataset(numberOfKeys: int, letters: seq<nat>) returns (file: string, value: string)
    requires forall j :: 0 <= j < |letters| ==> letters[j] < 26
    ensures |value| == |letters| && forall j :: 0 <= j < |value| ==> 'A' <= value[j] <= 'Z'
    ensures forall j :: 0 <= j < |value| ==> value[j] - 'A' == letters[j] as char
    ensures file == Rows(1, numberOfKeys, value)
  {
    value := "";
    for j := 0 to |letters|
      invariant |value| == j && forall k :: 0 <= k < j ==> 'A' <= value[k] <= 'Z'
      invariant forall k :: 0 <= k < j ==> value[k] - 'A' == letters[k] as char
    {
      value := value + [letters[j] as char + 'A'];
    }
    file := "";
    assert file + Rows(1, numberOfKeys, value) == Rows(1, numberOfKeys, value);
    var i: nat := 1;
    while i < numberOfKeys + 1
      invariant file + Rows(i, numberOfKeys, value) == Rows(1, numberOfKeys, value)
      decreases numberOfKeys + 1 - i
    {
      var rest := Rows(i + 1, numberOfKeys, value);
      assert file + (Row(i, value) + rest) == (file + Row(i, value)) + rest;
      file := file + Row(i, value);
      i := i + 1;
    }
    assert file + "" == file;
  }

  /** The characters before the first newline. */
  function LineLength(s: string): (n: nat)
    ensures n <= |s| && (forall i :: 0 <= i < n ==> s[i] != '\n') && (n < |s| ==> s[n] == '\n')
  {
    if s == [] || s[0] == '\n' then 0 else 1 + LineLength(s[1..])
  }

  function AfterLine(s: string): (r: string)
    ensures s != [] ==> |r| < |s|
  {
    if LineLength(s) < |s| then s[LineLength(s) + 1..] else ""
  }

  function FirstWord(line: string): (r: seq<string>) {
    match ReadWord(line)
    case Got(key, _) => [key]
    case Failed => []
  }

  /** The first word of every line that has one. */
  function KeysIn(s: string): (keys: seq<string>)
    decreases |s|
  {
    if s == [] then [] else FirstWord(s[..LineLength(s)]) + KeysIn(AfterLine(s))
  }

  /** Reading one more line moves its first word, if any, from the file to the list. */
  lemma KeysStep(keys: seq<string>, s: string)
    requires s != []
    ensures keys + KeysIn(s) == (keys + FirstWord(s[..LineLength(s)])) + KeysIn(AfterLine(s))
  {
    hide ReadWord, LineLength, AfterLine, FirstWord;
    assert KeysIn(s) == FirstWord(s[..LineLength(s)]) + KeysIn(AfterLine(s));
  }

  /** readKeysFromFile; a file that cannot be opened gives no keys. */
  method ReadKeysFromFile(file: Option<string>) returns (keys: seq<string>)
    ensures keys == if file.None? then [] else KeysIn(file.value)
  {
    keys := [];
    if file.None? {
      return;
    }
    hide ReadWord, LineLength;
    var rest := file.value;
    while rest != []
      invariant keys + KeysIn(rest) == KeysIn(file.value)
      decreases |rest|
    {
      KeysStep(keys, rest);
      match ReadWord(rest[..LineLength(rest)]) {
        case Got(word, _) => keys := keys + [word];
        case Failed => assert keys + [] == keys;
      }
      rest := AfterLine(rest);
    }
    assert keys + [] == keys;
  }

  function Numbered(lo: nat, n: int): (keys: seq<string>)
    decreases n + 1 - lo
  {
    if lo > n then [] else [Decimal.ToText(lo)] + Numbered(lo + 1, n)
  }

  lemma {:induction false} LineThenNewline(line: string, tail: string)
    requires '\n' !in line
    ensures LineLength(line + "\n" + tail) == |line|
  {
    if line != [] {
      LineThenNewline(line[1..], tail);
      assert (line + "\n" + tail)[1..] == line[1..] + "\n" + tail;
    }
  }

  lemma RowReadsBack(i: nat, value: string, tail: string)
    requires '\n' !in value
    ensures KeysIn(Row(i, value) + tail) == [Decimal.ToText(i)] + KeysIn(tail)
  {
    var key := Decimal.ToText(i);
    var line := key + " " + value;
    forall k | 0 <= k < |key| ensures !IsSpace(key[k]) && key[k] != '\n' {
      assert Decimal.IsDigit(key[k]);
    }
    var s := Row(i, value) + tail;
    assert s == line + "\n" + tail;
    LineThenNewline(line, tail);
    assert s[..|line|] == line && s[|line| + 1..] == tail;
    ReadWordBack(key, " " + value);
    assert line == key + (" " + value);
  }

  /** A written dataset reads back as the keys "1".."n", in order. */
  lemma {:induction false} DatasetReadsBack(lo: nat, n: int, value: string)
    requires '\n' !in value
    ensures KeysIn(Rows(lo, n, value)) == Numbered(lo, n)
    decreases n + 1 - lo
  {
    if lo <= n {
      DatasetReadsBack(lo + 1, n, value);
      RowReadsBack(lo, value, Rows(lo + 1, n, value));
    }
  }

  /** Leading spaces do not matter to an extraction. */
  lemma SpaceBefore(s: string)
    ensures ReadWord(" " + s) == ReadWord(s) && ReadInt(" " + s) == ReadInt(s) && ReadChar(" " + s) == ReadChar(s)
  {
    assert (" " + s)[1..] == s;
    assert SkipSpaces(" " + s) == SkipSpaces(s);
  }

  lemma RowText(i: nat, value: string, tail: string)
    ensures Row(i, value) + tail == Decimal.ToText(i) + (" " + (value + ("\n" + tail)))
  {
    hide Decimal.ToText;
  }

  lemma NumberIsAWord(i: nat)
    ensures Decimal.ToText(i) != [] && NoSpaces(Decimal.ToText(i))
  {
    var key := Decimal.ToText(i);
    forall k | 0 <= k < |key| ensures !IsSpace(key[k]) { assert Decimal.IsDigit(key[k]); }
  }

  /** A row reads back word by word: its key, its value, and then the next row. */
  lemma RowHoldsKeyAndValue(i: nat, value: string, tail: string)
    requires value != [] && NoSpaces(value)
    ensures var afterKey := " " + (value + ("\n" + tail));
            && ReadWord(Row(i, value) + tail) == Got(Decimal.ToText(i), afterKey)
            && ReadWord(afterKey) == Got(value, "\n" + tail)
  {
    NumberIsAWord(i);
    RowText(i, value, tail);
    hide Decimal.ToText, ReadWord, Row, NoSpaces;
    var afterValue := "\n" + tail;
    SpaceBefore(value + afterValue);
    ReadWordBack(Decimal.ToText(i), " " + (value + afterValue));
    ReadWordBack(value, afterValue);
  }

  lemma DigitsAreRead(digits: string, tail: string, negative: bool)
    requires digits != [] && (forall c :: c in digits ==> Decimal.IsDigit(c))
    requires tail != [] ==> !Decimal.IsDigit(tail[0])
    ensures var v := Signed(Decimal.ToNat(digits), negative);
            ReadDigits(digits + tail, negative) == if IsInt(v) then Got(v, tail) else Failed
  {
    DigitsThenOther(digits, tail);
    hide Decimal.ToNat, DigitsLength, Signed;
    assert (digits + tail)[..|digits|] == digits && (digits + tail)[|digits|..] == tail;
  }

  /** Where no space comes first, the sign decides. */
  lemma SignDecides(s: string)
    requires s != [] && !IsSpace(s[0])
    ensures ReadInt(s) == if s[0] == '-' || s[0] == '+' then ReadDigits(s[1..], s[0] == '-') else ReadDigits(s, false)
  {
    hide ReadDigits;
  }

  /** An int is read with or without a sign, up to the first character that is not a digit, if it fits. */
  lemma IntsAreRead(digits: string, tail: string)
    requires digits != [] && (forall c :: c in digits ==> Decimal.IsDigit(c))
    requires tail != [] ==> !Decimal.IsDigit(tail[0])
    ensures var n: int := Decimal.ToNat(digits);
            && ReadInt(digits + tail) == ReadInt("+" + digits + tail)
               == (if n < 0x8000_0000 then Got(n, tail) else Failed)
            && ReadInt("-" + digits + tail) == (if n <= 0x8000_0000 then Got(-n, tail) else Failed)
  {
    hide Decimal.ToNat, ReadInt, ReadDigits;
    DigitsAreRead(digits, tail, false);
    DigitsAreRead(digits, tail, true);
    assert Decimal.IsDigit(digits[0]);
    SignDecides(digits + tail);
    SignDecides("+" + digits + tail);
    SignDecides("-" + digits + tail);
    assert ("+" + digits + tail)[1..] == digits + tail && ("-" + digits + tail)[1..] == digits + tail;
  }

  /** A keys file is read line by line: each line gives its first word, and a blank line none. */
  lemma KeysLineByLine(line: string, rest: string)
    requires '\n' !in line
    ensures ReadWord(line).Got? ==> KeysIn(line + "\n" + rest) == [ReadWord(line).value] + KeysIn(rest)
    ensures ReadWord(line).Failed? ==> KeysIn(line + "\n" + rest) == KeysIn(rest)
  {
    hide ReadWord;
    var s := line + "\n" + rest;
    LineThenNewline(line, rest);
    assert s[..|line|] == line && s[|line| + 1..] == rest;
  }
}
