/** The S-record to COE converter. Text is a sequence of characters; a file is read
    as its lines, each with its newline if it has one. */
module SRecord {

  type Byte = b: nat | b < 256

  datatype Option<T> = None | Some(value: T)

  datatype Result<T> = Ok(value: T) | Err(error: Error)

  datatype Error = BadNumber | BadData | BelowBase | AboveRom | BadBase | BadSize

  // Numbers in text.

  function DigitChar(d: nat): (c: char)
    requires d < 16
  {
    if d < 10 then '0' + d as char else 'A' + (d - 10) as char
  }

  function DigitValue(c: char): (d: Option<nat>)
    ensures d.Some? ==> d.value < 16
  {
    if '0' <= c <= '9' then Some((c - '0') as nat)
    else if 'A' <= c <= 'F' then Some((c - 'A') as nat + 10)
    else if 'a' <= c <= 'f' then Some((c - 'a') as nat + 10)
    else None
  }

  lemma DigitRoundTrip(d: nat)
    requires d < 16
    ensures DigitValue(DigitChar(d)) == Some(d)
  {}

  const UPPER: string := "0123456789ABCDEF"
  const LOWER: string := "0123456789abcdef"

  /** The sixteen digits, which are read in either case and written in upper case. */
  lemma DigitsAre(d: nat)
    requires d < 16
    ensures DigitValue(UPPER[d]) == DigitValue(LOWER[d]) == Some(d) && DigitChar(d) == UPPER[d]
  {}

  /** There are no others. */
  lemma NoOtherDigits(c: char)
    ensures DigitValue(c).Some? <==> c in UPPER || c in LOWER
  {
    var d := DigitValue(c);
    if d.Some? {
      DigitsAre(d.value);
      assert c == UPPER[d.value] || c == LOWER[d.value];
    } else if c in UPPER {
      var k :| 0 <= k < 16 && UPPER[k] == c;
      DigitsAre(k);
    } else if c in LOWER {
      var k :| 0 <= k < 16 && LOWER[k] == c;
      DigitsAre(k);
    }
  }

  /** t is s with some letters in the other case. */
  predicate SameDigits(s: string, t: string)
  {
    |s| == |t| && forall k :: 0 <= k < |s| ==> DigitValue(s[k]).Some? && DigitValue(t[k]) == DigitValue(s[k])
  }

  /** White space, as int() strips it. */
  predicate IsSpace(c: char)
  {
    ('\t' <= c <= '\r') || (28 as char <= c <= ' ')
  }

  function Strip(s: string): (t: string)
    decreases |s|
  {
    if s == [] then s
    else if IsSpace(s[0]) then Strip(s[1..])
    else if IsSpace(s[|s| - 1]) then Strip(s[..|s| - 1])
    else s
  }

  /** Digits with single underscores between them. */
  function Digits(s: string): (v: Option<nat>)
    decreases |s|
  {
    if s == [] || DigitValue(s[|s| - 1]).None? then None
    else
      var d := DigitValue(s[|s| - 1]).value;
      if |s| == 1 then Some(d)
      else
        var high := Digits(if s[|s| - 2] == '_' then s[..|s| - 2] else s[..|s| - 1]);
        if high.None? then None else Some(16 * high.value + d)
  }

  /** The optional prefix 0x and the underscore that may follow it. */
  function WithoutPrefix(s: string): (t: string)
  {
    if |s| >= 2 && s[0] == '0' && (s[1] == 'x' || s[1] == 'X') then
      if |s| >= 3 && s[2] == '_' then s[3..] else s[2..]
    else s
  }

  /** int(s, 16). */
  function HexInt(s: string): (v: Option<int>)
  {
    StrippedInt(Strip(s))
  }

  function StrippedInt(t: string): (v: Option<int>)
  {
    if t != [] && (t[0] == '+' || t[0] == '-') then
      var v := Digits(WithoutPrefix(t[1..]));
      if v.None? then None else Some(if t[0] == '-' then 0 - v.value else v.value)
    else
      var v := Digits(WithoutPrefix(t));
      if v.None? then None else Some(v.value)
  }

  /** s[lo:hi] with Python's rules for negative and overlarge bounds. */
  function Slice(s: string, lo: nat, hi: int): (t: string)
  {
    var end := if hi < 0 then (if hi + |s| < 0 then 0 else hi + |s|) else if hi > |s| then |s| else hi;
    if lo >= end then [] else s[lo..end]
  }

  /** binascii.unhexlify. */
  function Unhexlify(s: string): (b: Option<seq<Byte>>)
  {
    if s == [] then Some([])
    else if |s| == 1 then None
    else
      var hi, lo, rest := DigitValue(s[0]), DigitValue(s[1]), Unhexlify(s[2..]);
      if hi.None? || lo.None? || rest.None? then None
      else Some([16 * hi.value + lo.value] + rest.value)
  }

  // Parsing.

  datatype Record = Record(address: int, data: seq<Byte>)

  /** What one line does: end the parse, nothing, yield a record, or fail. */
  datatype Line = Stop | Skip | Data(record: Record) | Fail(error: Error)

  function AddrLen(kind: string): (n: nat)
  {
    if kind == "S1" then 4 else if kind == "S2" then 6 else if kind == "S3" then 8 else 0
  }

  function ParseLine(line: string): (r: Line)
  {
    if |line| < 4 then Stop
    else
      var count := HexInt(line[2..4]);
      if count.None? then Fail(BadNumber)
      else
        var rest, n := Slice(line, 4, 4 + count.value * 2), AddrLen(line[..2]);
        if n == 0 then Skip
        else
          var address := HexInt(Slice(rest, 0, n));
          if address.None? then Fail(BadNumber)
          else
            var data := Unhexlify(Slice(rest, n, 0 - 2));
            if data.None? then Fail(BadData) else Data(Record(address.value, data.value))
  }

  /** A parse in progress, ended by a short line, or failed. */
  datatype Status = Going | Stopped | Failed(error: Error)

  datatype Parsed = Parsed(records: seq<Record>, status: Status)

  /** A parse after one more line. */
  function WithLine(p: Parsed, line: Line): (q: Parsed)
  {
    match line
    case Stop => p.(status := Stopped)
    case Skip => p
    case Data(r) => p.(records := p.records + [r])
    case Fail(e) => p.(status := Failed(e))
  }

  function ParseLines(lines: seq<string>): (p: Parsed)
  {
    if lines == [] then Parsed([], Going)
    else
      var p := ParseLines(lines[..|lines| - 1]);
      if p.status != Going then p else WithLine(p, ParseLine(lines[|lines| - 1]))
  }

  /** An address and the byte that goes there. */
  datatype Write = Write(address: int, value: Byte)

  function WritesOf(address: int, data: seq<Byte>): (w: seq<Write>)
    ensures |w| == |data|
    ensures forall k :: 0 <= k < |data| ==> w[k] == Write(address + k, data[k])
  {
    if data == [] then [] else WritesOf(address, data[..|data| - 1]) + [Write(address + |data| - 1, data[|data| - 1])]
  }

  function AllWrites(records: seq<Record>): (w: seq<Write>)
  {
    if records == [] then []
    else AllWrites(records[..|records| - 1]) + WritesOf(records[|records| - 1].address, records[|records| - 1].data)
  }

  // The ROM.

  /** One byte into the ROM. */
  function Store(rom: seq<Byte>, w: Write, base: nat, force: bool): (r: Result<seq<Byte>>)
  {
    if w.address < base then
      if force then Ok(rom) else Err(BelowBase)
    else if w.address - base >= |rom| then
      if force then Ok(rom) else Err(AboveRom)
    else Ok(rom[w.address - base := w.value])
  }

  function StoreAll(rom: seq<Byte>, writes: seq<Write>, base: nat, force: bool): (r: Result<seq<Byte>>)
    ensures r.Ok? ==> |r.value| == |rom|
  {
    if writes == [] then Ok(rom)
    else
      match StoreAll(rom, writes[..|writes| - 1], base, force)
      case Err(e) => Err(e)
      case Ok(rom') => Store(rom', writes[|writes| - 1], base, force)
  }

  predicate InRange(w: Write, base: nat, size: nat)
  {
    base <= w.address < base + size
  }

  /** The last value written to an address, or zero. */
  function LastWrite(writes: seq<Write>, address: int): (v: Byte)
  {
    if writes == [] then 0
    else if writes[|writes| - 1].address == address then writes[|writes| - 1].value
    else LastWrite(writes[..|writes| - 1], address)
  }

  function Zeros(size: nat): (rom: seq<Byte>)
    ensures |rom| == size && forall k :: 0 <= k < size ==> rom[k] == 0
  {
    seq(size, _ => 0)
  }

  /** The ROM is zero except where the last write in range wins. */
  lemma {:induction false} RomHoldsLastWrites(writes: seq<Write>, base: nat, size: nat, force: bool)
    ensures
      var r := StoreAll(Zeros(size), writes, base, force);
      && (r.Ok? <==> force || forall k :: 0 <= k < |writes| ==> InRange(writes[k], base, size))
      && (r.Ok? ==> forall a :: 0 <= a < size ==> r.value[a] == LastWrite(writes, base + a))
  {
    if writes != [] {
      var init, last := writes[..|writes| - 1], writes[|writes| - 1];
      RomHoldsLastWrites(init, base, size, force);
      assert writes == init + [last];
    }
  }

  /** Further writes, unless there was an error. */
  function StoreMore(r: Result<seq<Byte>>, writes: seq<Write>, base: nat, force: bool): (r': Result<seq<Byte>>)
  {
    if r.Err? then r else StoreAll(r.value, writes, base, force)
  }

  lemma {:induction false} StoreConcat(rom: seq<Byte>, v: seq<Write>, w: seq<Write>, base: nat, force: bool)
    ensures StoreAll(rom, v + w, base, force) == StoreMore(StoreAll(rom, v, base, force), w, base, force)
    decreases |w|
  {
    if w == [] {
      assert v + w == v;
    } else {
      StoreConcat(rom, v, w[..|w| - 1], base, force);
      assert (v + w)[..|v + w| - 1] == v + w[..|w| - 1];
    }
  }

  // The program.

  /** The ROM that some lines fill: an address out of range counts before a malformed
      line that comes later. */
  function RomOf(p: Parsed, base: nat, size: nat, force: bool): (r: Result<seq<Byte>>)
  {
    match StoreAll(Zeros(size), AllWrites(p.records), base, force)
    case Err(e) => Err(e)
    case Ok(rom) => if p.status.Failed? then Err(p.status.error) else Ok(rom)
  }

  lemma WritesNext(records: seq<Record>, r: Record)
    ensures AllWrites(records + [r]) == AllWrites(records) + WritesOf(r.address, r.data)
  {
    assert (records + [r])[..|records|] == records;
  }

  ghost predicate WritesJoined(r: seq<Record>, s: seq<Record>)
  {
    AllWrites(r + s) == AllWrites(r) + AllWrites(s)
  }

  lemma WritesJoin(r: seq<Record>, s: seq<Record>, last: Record)
    requires WritesJoined(r, s)
    ensures WritesJoined(r, s + [last])
  {
    WritesNext(r + s, last);
    WritesNext(s, last);
    AppendLast(r, s, last);
    AppendWrites(AllWrites(r), AllWrites(s), WritesOf(last.address, last.data));
  }

  lemma AppendLast(r: seq<Record>, s: seq<Record>, last: Record)
    ensures r + (s + [last]) == (r + s) + [last]
  {}

  lemma AppendWrites(a: seq<Write>, b: seq<Write>, c: seq<Write>)
    ensures (a + b) + c == a + (b + c)
  {}

  lemma {:induction false} WritesConcat(r: seq<Record>, s: seq<Record>)
    ensures WritesJoined(r, s)
    decreases |s|
  {
    if s == [] {
      assert r + s == r;
    } else {
      var init, last := s[..|s| - 1], s[|s| - 1];
      WritesConcat(r, init);
      WritesJoin(r, init, last);
      assert s == init + [last];
    }
  }

  /** More lines only add records, and none once the parse has ended. */
  lemma {:induction false} ParseMore(lines: seq<string>, n: nat)
    requires n <= |lines|
    ensures
      var p, q := ParseLines(lines[..n]), ParseLines(lines);
      p.records <= q.records && (p.status != Going ==> q == p)
    decreases |lines|
  {
    if n == |lines| {
      assert lines[..n] == lines;
    } else {
      var init := lines[..|lines| - 1];
      ParseMore(init, n);
      assert init[..n] == lines[..n];
    }
  }

  /** An address out of range ends everything. */
  lemma StoreErrorStays(lines: seq<string>, n: nat, base: nat, size: nat, force: bool)
    requires n <= |lines| && StoreAll(Zeros(size), AllWrites(ParseLines(lines[..n]).records), base, force).Err?
    ensures RomOf(ParseLines(lines), base, size, force) == RomOf(ParseLines(lines[..n]), base, size, force)
  {
    var p, q := ParseLines(lines[..n]), ParseLines(lines);
    ParseMore(lines, n);
    assert q.records == p.records + q.records[|p.records|..];
    WritesConcat(p.records, q.records[|p.records|..]);
    StoreConcat(Zeros(size), AllWrites(p.records), AllWrites(q.records[|p.records|..]), base, force);
  }

  lemma ParseNext(lines: seq<string>, n: nat)
    requires n < |lines| && ParseLines(lines[..n]).status == Going
    ensures ParseLines(lines[..n + 1]) == WithLine(ParseLines(lines[..n]), ParseLine(lines[n]))
  {
    assert lines[..n + 1][..n] == lines[..n];
  }

  lemma StoreNext(rom: seq<Byte>, v: seq<Write>, w: Write, base: nat, force: bool)
    ensures
      var r := StoreAll(rom, v, base, force);
      StoreAll(rom, v + [w], base, force) == if r.Err? then r else Store(r.value, w, base, force)
  {
    assert (v + [w])[..|v|] == v;
  }

  /** One byte, in place. */
  method StoreByte(rom: array<Byte>, address: int, value: Byte, base: nat, force: bool) returns (error: Option<Error>)
    modifies rom
    ensures error.None? ==> Store(old(rom[..]), Write(address, value), base, force) == Ok(rom[..])
    ensures error.Some? ==> Store(old(rom[..]), Write(address, value), base, force) == Err(error.value)
  {
    error := None;
    if address < base {
      if !force { error := Some(BelowBase); }
    } else if address - base >= rom.Length {
      if !force { error := Some(AboveRom); }
    } else {
      rom[address - base] := value;
    }
  }

  /** The bytes of one record, one address after the other. */
  method StoreRecord(rom: array<Byte>, r: Record, base: nat, force: bool) returns (error: Option<Error>)
    modifies rom
    ensures error.None? ==> StoreAll(old(rom[..]), WritesOf(r.address, r.data), base, force) == Ok(rom[..])
    ensures error.Some? ==> StoreAll(old(rom[..]), WritesOf(r.address, r.data), base, force) == Err(error.value)
  {
    ghost var before := rom[..];
    ghost var all := WritesOf(r.address, r.data);
    var address := r.address;
    error := None;
    for k := 0 to |r.data|
      invariant error == None && address == r.address + k
      invariant StoreAll(before, all[..k], base, force) == Ok(rom[..])
    {
      assert all[..k + 1] == all[..k] + [Write(address, r.data[k])];
      StoreNext(before, all[..k], Write(address, r.data[k]), base, force);
      error := StoreByte(rom, address, r.data[k], base, force);
      if error.Some? {
        assert all == all[..k + 1] + all[k + 1..];
        StoreConcat(before, all[..k + 1], all[k + 1..], base, force);
        return;
      }
      address := address + 1;
    }
    assert all[..|r.data|] == all;
  }

  /** The loop over the input file, filling the ROM in place. */
  method FillRom(lines: seq<string>, rom: array<Byte>, base: nat, force: bool) returns (error: Option<Error>)
    requires rom[..] == Zeros(rom.Length)
    modifies rom
    ensures error.None? ==> RomOf(ParseLines(lines), base, rom.Length, force) == Ok(rom[..])
    ensures error.Some? ==> RomOf(ParseLines(lines), base, rom.Length, force) == Err(error.value)
  {
    error := None;
    ghost var zeros := Zeros(rom.Length);
    for n := 0 to |lines|
      invariant error == None && ParseLines(lines[..n]).status == Going
      invariant StoreAll(zeros, AllWrites(ParseLines(lines[..n]).records), base, force) == Ok(rom[..])
    {
      ParseNext(lines, n);
      ParseMore(lines, n + 1);
      ghost var records := ParseLines(lines[..n]).records;
      match ParseLine(lines[n]) {
        case Stop =>
          return;
        case Skip =>
        case Fail(e) =>
          return Some(e);
        case Data(r) =>
          WritesNext(records, r);
          StoreConcat(zeros, AllWrites(records), WritesOf(r.address, r.data), base, force);
          error := StoreRecord(rom, r, base, force);
          if error.Some? {
            StoreErrorStays(lines, n + 1, base, rom.Length, force);
            return;
          }
      }
    }
    assert lines[..|lines|] == lines;
  }

  // The output.

  const HEADER: string := "memory_initialization_radix=16;\n" + "memory_initialization_vector="

  /** binascii.hexlify, in upper case, of one byte. */
  function HexByte(b: Byte): (s: string)
    ensures |s| == 2
  {
    [DigitChar(b / 16), DigitChar(b % 16)]
  }

  function HexBytes(b: seq<Byte>): (s: string)
    ensures |s| == 2 * |b|
  {
    if b == [] then [] else HexByte(b[0]) + HexBytes(b[1..])
  }

  function Backwards(b: seq<Byte>): (r: seq<Byte>)
    ensures |r| == |b| && forall k :: 0 <= k < |b| ==> r[k] == b[|b| - 1 - k]
  {
    seq(|b|, k requires 0 <= k < |b| => b[|b| - 1 - k])
  }

  /** The first n words of the ROM, each with its bytes swapped, one to a line. */
  function Words(rom: seq<Byte>, n: nat): (s: string)
    requires 4 * n <= |rom|
    ensures |s| == 9 * n
  {
    if n == 0 then []
    else Words(rom, n - 1) + HexBytes(Backwards(rom[4 * n - 4..4 * n])) + "\n"
  }

  method Emit(rom: array<Byte>) returns (out: string)
    requires rom.Length % 16 == 0
    ensures out == ("memory_initialization_radix=16;\n" + "memory_initialization_vector=") + Words(rom[..], rom.Length / 4)
  {
    out := EmitWords(rom, HEADER);
  }

  /** The header and n words are out. */
  ghost predicate Emitted(out: string, header: string, rom: seq<Byte>, n: nat)
    requires 4 * n <= |rom|
  {
    out == header + Words(rom, n)
  }

  method EmitWords(rom: array<Byte>, header: string) returns (out: string)
    requires rom.Length % 16 == 0
    ensures out == header + Words(rom[..], rom.Length / 4)
  {
    out := header;
    var i := 0;
    ghost var n, words := 0, rom.Length / 4;
    WholeWords(rom.Length);
    while i < rom.Length
      invariant i == 4 * n && n <= words
      invariant Emitted(out, header, rom[..], n)
    {
      out := EmitWord(rom, i, out, header, n);
      i, n := i + 4, n + 1;
    }
  }

  lemma WholeWords(length: nat)
    requires length % 16 == 0
    ensures length == 4 * (length / 4)
  {
    assert length == 16 * (length / 16);
    Quarter(length, 4 * (length / 16));
  }

  lemma Quarter(length: nat, n: nat)
    requires length == 4 * n
    ensures length / 4 == n
  {}

  /** One line of the output. */
  method EmitWord(rom: array<Byte>, i: nat, out: string, ghost header: string, ghost n: nat) returns (out': string)
    requires i == 4 * n && i + 4 <= rom.Length && Emitted(out, header, rom[..], n)
    ensures Emitted(out', header, rom[..], n + 1)
  {
    var chunk := rom[i..i + 4];
    assert chunk == rom[..][4 * n..4 * n + 4];
    out' := out + HexBytes(Backwards(chunk)) + "\n";
    WordsNext(out, header, rom[..], n + 1, chunk);
  }

  lemma WordsNext(out: string, header: string, rom: seq<Byte>, n: nat, chunk: seq<Byte>)
    requires 1 <= n && 4 * n <= |rom| && chunk == rom[4 * n - 4..4 * n] && out == header + Words(rom, n - 1)
    ensures out + HexBytes(Backwards(chunk)) + "\n" == header + Words(rom, n)
  {
    Append4(header, Words(rom, n - 1), HexBytes(Backwards(chunk)), "\n");
  }

  lemma Append4(a: string, b: string, c: string, d: string)
    ensures ((a + b) + c) + d == a + ((b + c) + d)
  {}

  /** Byte d of line k is byte 3 - d of word k, its upper digit first; a newline follows
      the four. */
  lemma {:induction false} OutputDigits(rom: seq<Byte>, n: nat, k: nat, d: nat)
    requires 4 * n <= |rom| && k < n && d < 4
    ensures
      var b := rom[4 * k + 3 - d];
      && Words(rom, n)[9 * k + 2 * d] == UPPER[b / 16] && Words(rom, n)[9 * k + 2 * d + 1] == UPPER[b % 16]
      && Words(rom, n)[9 * k + 8] == '\n'
  {
    if k < n - 1 {
      OutputDigits(rom, n - 1, k, d);
    } else {
      var word := Backwards(rom[4 * n - 4..4 * n]);
      WordDigits(word, d);
      assert word[d] == rom[4 * k + 3 - d];
      LineAt(Words(rom, n - 1), HexBytes(word), 9 * k, 2 * d);
      LineAt(Words(rom, n - 1), HexBytes(word), 9 * k, 2 * d + 1);
    }
  }

  lemma LineAt(before: string, word: string, m: nat, c: nat)
    requires |before| == m && |word| == 8 && c < 8
    ensures (before + word + "\n")[m + c] == word[c] && (before + word + "\n")[m + 8] == '\n'
  {}

  lemma {:induction false} WordDigits(b: seq<Byte>, d: nat)
    requires d < |b|
    ensures HexBytes(b)[2 * d] == UPPER[b[d] / 16] && HexBytes(b)[2 * d + 1] == UPPER[b[d] % 16]
  {
    if d == 0 {
      DigitsAre(b[0] / 16);
      DigitsAre(b[0] % 16);
    } else {
      WordDigits(b[1..], d - 1);
      NextDigits(HexByte(b[0]), HexBytes(b[1..]), 2 * d);
    }
  }

  lemma NextDigits(first: string, rest: string, c: nat)
    requires |first| == 2 && 2 <= c < |rest| + 1
    ensures (first + rest)[c] == rest[c - 2] && (first + rest)[c + 1] == rest[c - 1]
  {}

  /** Reading the words back: a line holds one word with its most significant digits
      first, and the word is stored least significant byte first. */
  function ReadWords(text: string, n: nat): (b: Option<seq<Byte>>)
    requires |text| == 9 * n
  {
    if n == 0 then Some([])
    else
      var before, word := ReadWords(text[..9 * n - 9], n - 1), Unhexlify(text[9 * n - 9..9 * n - 1]);
      if before.None? || word.None? then None else Some(before.value + Backwards(word.value))
  }

  lemma {:induction false} UnhexlifyHex(b: seq<Byte>)
    ensures Unhexlify(HexBytes(b)) == Some(b)
  {
    if b != [] {
      UnhexlifyHex(b[1..]);
      var s := HexBytes(b);
      DigitRoundTrip(b[0] / 16);
      DigitRoundTrip(b[0] % 16);
      assert s[2..] == HexBytes(b[1..]);
      assert [16 * (b[0] / 16) + b[0] % 16] + b[1..] == b;
    }
  }

  lemma BackwardsTwice(b: seq<Byte>)
    ensures Backwards(Backwards(b)) == b
  {}

  lemma LastLine(before: string, word: string, m: nat)
    requires |before| == m && |word| == 8
    ensures
      var text := before + word + "\n";
      text[..m] == before && text[m..m + 8] == word
  {}

  lemma ReadNext(before: string, word: seq<Byte>, n: nat, b: seq<Byte>)
    requires n >= 1 && |before| == 9 * n - 9 && |word| == 4 && ReadWords(before, n - 1) == Some(b)
    ensures ReadWords(before + HexBytes(Backwards(word)) + "\n", n) == Some(b + word)
  {
    LastLine(before, HexBytes(Backwards(word)), 9 * n - 9);
    UnhexlifyHex(Backwards(word));
    BackwardsTwice(word);
  }

  /** The first n words read back as the first 4n bytes. */
  ghost predicate ReadsAs(rom: seq<Byte>, n: nat)
    requires 4 * n <= |rom|
  {
    ReadWords(Words(rom, n), n) == Some(rom[..4 * n])
  }

  lemma ReadsNext(rom: seq<Byte>, n: nat)
    requires n >= 1 && 4 * n <= |rom| && ReadsAs(rom, n - 1)
    ensures ReadsAs(rom, n)
  {
    ReadNext(Words(rom, n - 1), rom[4 * n - 4..4 * n], n, rom[..4 * n - 4]);
    assert rom[..4 * n - 4] + rom[4 * n - 4..4 * n] == rom[..4 * n];
  }

  /** Reading the emitted words little-endian gives back the ROM. */
  lemma {:induction false} WordsRoundTrip(rom: seq<Byte>, n: nat)
    requires 4 * n <= |rom|
    ensures ReadsAs(rom, n)
  {
    if n > 0 {
      WordsRoundTrip(rom, n - 1);
      ReadsNext(rom, n);
    }
  }

  /** The output for a ROM, unless there was an error. */
  function Output(r: Result<seq<Byte>>): (out: Result<string>)
  {
    match r
    case Err(e) => Err(e)
    case Ok(rom) => Ok(HEADER + Words(rom, |rom| / 4))
  }

  type Parser = string -> Line

  function LineParser(): (parse: Parser)
  {
    (line: string) => ParseLine(line)
  }

  /** Line n is rejected, and nothing before it ends the parse. */
  predicate RejectedAt(parse: Parser, lines: seq<string>, n: nat)
  {
    n < |lines| && parse(lines[n]).Fail? && forall k :: 0 <= k < n ==> |lines[k]| >= 4
  }

  ghost predicate Rejected(parse: Parser, lines: seq<string>)
  {
    exists n: nat :: RejectedAt(parse, lines, n)
  }

  predicate Fine(parse: Parser, line: string)
  {
    |line| >= 4 && !parse(line).Fail?
  }

  predicate AllFine(parse: Parser, lines: seq<string>)
  {
    forall k :: 0 <= k < |lines| ==> Fine(parse, lines[k])
  }

  /** How the parse of some lines goes on with the last of them. */
  ghost predicate Continues(parse: Parser, before: Status, last: string, after: Status)
  {
    && (after.Going? <==> before.Going? && Fine(parse, last))
    && (after.Failed? <==> before.Failed? || (before.Going? && parse(last).Fail?))
  }

  lemma StatusNext(lines: seq<string>)
    requires lines != []
    ensures Continues(LineParser(), ParseLines(lines[..|lines| - 1]).status, lines[|lines| - 1], ParseLines(lines).status)
  {
    OutcomeNext(ParseLines(lines[..|lines| - 1]), lines[|lines| - 1]);
  }

  lemma OutcomeNext(p: Parsed, last: string)
    ensures Continues(LineParser(), p.status, last, (if p.status != Going then p else WithLine(p, ParseLine(last))).status)
  {
    StopsIff(last);
    assert LineParser()(last) == ParseLine(last);
  }

  lemma StopsIff(line: string)
    ensures ParseLine(line).Stop? <==> |line| < 4
  {}

  lemma AllFineNext(parse: Parser, lines: seq<string>)
    requires lines != []
    ensures AllFine(parse, lines) <==> AllFine(parse, lines[..|lines| - 1]) && Fine(parse, lines[|lines| - 1])
  {}

  lemma RejectedNext(parse: Parser, lines: seq<string>)
    requires lines != []
    ensures Rejected(parse, lines) <==>
      || Rejected(parse, lines[..|lines| - 1])
      || (AllFine(parse, lines[..|lines| - 1]) && parse(lines[|lines| - 1]).Fail?)
  {
    var init, m := lines[..|lines| - 1], |lines| - 1;
    if Rejected(parse, init) {
      var n: nat :| RejectedAt(parse, init, n);
      assert RejectedAt(parse, lines, n);
    } else if AllFine(parse, init) && parse(lines[m]).Fail? {
      assert RejectedAt(parse, lines, m);
    }
    if Rejected(parse, lines) && !Rejected(parse, init) {
      var n: nat :| RejectedAt(parse, lines, n);
      RejectedLast(parse, lines, n);
    }
  }

  lemma RejectedLast(parse: Parser, lines: seq<string>, n: nat)
    requires RejectedAt(parse, lines, n) && !Rejected(parse, lines[..|lines| - 1])
    ensures n == |lines| - 1 && AllFine(parse, lines[..n])
  {
    var init := lines[..|lines| - 1];
    assert !RejectedAt(parse, init, n);
    forall k | 0 <= k < n ensures Fine(parse, lines[..n][k]) {
      assert !RejectedAt(parse, init, k);
    }
  }

  /** A parse goes on exactly if no line ends it and none is rejected, and it fails
      exactly if a line is rejected. */
  lemma {:induction false} ParseEnds(lines: seq<string>)
    ensures ParseLines(lines).status.Going? <==> AllFine(LineParser(), lines)
    ensures ParseLines(lines).status.Failed? <==> Rejected(LineParser(), lines)
  {
    if lines != [] {
      ParseEnds(lines[..|lines| - 1]);
      StatusNext(lines);
      AllFineNext(LineParser(), lines);
      RejectedNext(LineParser(), lines);
    }
  }

  predicate AllInRange(writes: seq<Write>, base: nat, size: nat)
  {
    forall k :: 0 <= k < |writes| ==> InRange(writes[k], base, size)
  }

  /** There is an output exactly if no line is rejected and every write is in range, or
      those out of range are to be ignored. */
  lemma OutputIff(lines: seq<string>, base: nat, size: nat, force: bool)
    ensures Output(RomOf(ParseLines(lines), base, size, force)).Ok? <==>
      !Rejected(LineParser(), lines) && (force || AllInRange(AllWrites(ParseLines(lines).records), base, size))
  {
    ParseEnds(lines);
    RomHoldsLastWrites(AllWrites(ParseLines(lines).records), base, size, force);
  }

  /** The error tells on which side the first write out of range lies. */
  lemma {:induction false} FirstErrorTold(writes: seq<Write>, base: nat, size: nat) returns (k: nat)
    requires !AllInRange(writes, base, size)
    ensures k < |writes| && AllInRange(writes[..k], base, size) && !InRange(writes[k], base, size)
    ensures StoreAll(Zeros(size), writes, base, false) == Err(if writes[k].address < base then BelowBase else AboveRom)
  {
    var m := |writes| - 1;
    var init := writes[..m];
    RomHoldsLastWrites(init, base, size, false);
    if AllInRange(init, base, size) {
      k := m;
      assert !InRange(writes[k], base, size) by {
        if InRange(writes[k], base, size) {
          forall i | 0 <= i < |writes| ensures InRange(writes[i], base, size) { if i < m { assert init[i] == writes[i]; } }
        }
      }
    } else {
      k := FirstErrorTold(init, base, size);
      assert init[..k] == writes[..k];
    }
  }

  /** main: the checks, the ROM, the output. Nothing is written on an error. */
  method Convert(lines: seq<string>, base: int, size: int, force: bool) returns (r: Result<string>)
    ensures base < 0 || base % 16 != 0 ==> r == Err(BadBase)
    ensures base >= 0 && base % 16 == 0 && (size < 0 || size % 16 != 0) ==> r == Err(BadSize)
    ensures base >= 0 && base % 16 == 0 && size >= 0 && size % 16 == 0 ==>
              r == Output(RomOf(ParseLines(lines), base, size, force))
    ensures r.Ok? <==>
      && base >= 0 && base % 16 == 0 && size >= 0 && size % 16 == 0
      && !Rejected(LineParser(), lines) && (force || AllInRange(AllWrites(ParseLines(lines).records), base, size))
  {
    if base < 0 || base % 16 != 0 {
      return Err(BadBase);
    }
    if size < 0 || size % 16 != 0 {
      return Err(BadSize);
    }
    OutputIff(lines, base, size, force);
    var rom := new Byte[size](_ => 0);
    assert rom[..] == Zeros(size);
    var error := FillRom(lines, rom, base, force);
    if error.Some? {
      return Err(error.value);
    }
    var out := Emit(rom);
    return Ok(out);
  }

  // Printing, and the round trip.

  function Pow16(n: nat): (p: nat)
    ensures p >= 1
  {
    if n == 0 then 1 else 16 * Pow16(n - 1)
  }

  /** A number in n digits. */
  function Hex(v: nat, n: nat): (s: string)
    ensures |s| == n
  {
    if n == 0 then [] else Hex(v / 16, n - 1) + [DigitChar(v % 16)]
  }

  /** A line of a file to convert: a data record with the correct count and any
      checksum, a line of another kind, or a line too short to be a record. */
  datatype Item =
    | Segment(kind: nat, address: nat, data: seq<Byte>, checksum: Byte)
    | Other(text: string)
    | Short(text: string)

  function Count(i: Item): (n: nat)
    requires i.Segment?
  {
    i.kind + 1 + |i.data| + 1
  }

  /** A segment fits its record; any other line is long enough, has a legible count and
      is not a data record. */
  predicate Printable(i: Item)
  {
    match i
    case Segment(kind, address, data, _) => 1 <= kind <= 3 && address < Pow16(2 * (kind + 1)) && Count(i) < 256
    case Other(text) => |text| >= 4 && text[..2] !in {"S1", "S2", "S3"} && HexInt(text[2..4]).Some?
    case Short(text) => |text| < 4
  }

  /** The end of a line; the last line of a file may lack it. */
  function Ending(ended: bool): (e: string)
  {
    if ended then "\n" else ""
  }

  function Print(i: Item, ended: bool): (line: string)
    requires Printable(i)
  {
    match i
    case Segment(kind, address, data, checksum) =>
      ['S', DigitChar(kind)] + HexByte(Count(i)) + (Hex(address, 2 * (kind + 1)) + HexBytes(data) + HexByte(checksum)) + Ending(ended)
    case Other(text) => text
    case Short(text) => text
  }

  /** A plain number has neither white space, a sign nor a prefix. */
  lemma {:induction false} HexDigitsRoundTrip(v: nat, n: nat)
    requires n >= 1 && v < Pow16(n)
    ensures Digits(Hex(v, n)) == Some(v)
  {
    DigitRoundTrip(v % 16);
    if n > 1 {
      HexDigitsRoundTrip(v / 16, n - 1);
      assert Hex(v, n)[..n - 1] == Hex(v / 16, n - 1);
      HexChars(v / 16, n - 1);
    } else {
      assert Pow16(1) == 16 && Pow16(0) == 1;
    }
  }

  predicate IsDigit(c: char)
  {
    ('0' <= c <= '9') || ('A' <= c <= 'F') || ('a' <= c <= 'f')
  }

  lemma {:induction false} HexChars(v: nat, n: nat)
    ensures forall k :: 0 <= k < n ==> IsDigit(Hex(v, n)[k])
  {
    if n > 0 {
      HexChars(v / 16, n - 1);
    }
  }

  lemma PlainNumber(s: string)
    requires s != [] && forall k :: 0 <= k < |s| ==> IsDigit(s[k])
    ensures HexInt(s) == if Digits(s).None? then None else Some(Digits(s).value)
  {
    assert IsDigit(s[0]) && IsDigit(s[|s| - 1]);
    StripPlain(s);
    PrefixPlain(s);
  }

  lemma StripPlain(s: string)
    requires s != [] && IsDigit(s[0]) && IsDigit(s[|s| - 1])
    ensures Strip(s) == s
  {}

  lemma PrefixPlain(s: string)
    requires forall k :: 0 <= k < |s| ==> IsDigit(s[k])
    ensures WithoutPrefix(s) == s
  {}

  lemma HexRoundTrip(v: nat, n: nat)
    requires n >= 1 && v < Pow16(n)
    ensures HexInt(Hex(v, n)) == Some(v)
  {
    HexDigitsRoundTrip(v, n);
    HexChars(v, n);
    PlainNumber(Hex(v, n));
  }

  predicate Spaces(s: string)
  {
    forall k :: 0 <= k < |s| ==> IsSpace(s[k])
  }

  lemma {:induction false} StripSpaces(left: string, core: string, right: string)
    requires Spaces(left) && Spaces(right) && core != [] && !IsSpace(core[0]) && !IsSpace(core[|core| - 1])
    ensures Strip(left + core + right) == core
    decreases |left| + |right|
  {
    if left != [] {
      StripSpaces(left[1..], core, right);
      FirstOff(left, core, right);
    } else if right != [] {
      StripSpaces(left, core, right[..|right| - 1]);
      LastOff(left, core, right);
    } else {
      assert left + core + right == core;
    }
  }

  lemma FirstOff(left: string, core: string, right: string)
    requires left != []
    ensures
      var s := left + core + right;
      s[0] == left[0] && s[1..] == left[1..] + core + right
  {}

  lemma LastOff(left: string, core: string, right: string)
    requires left == [] && right != [] && core != []
    ensures
      var s := left + core + right;
      s[0] == core[0] && s[|s| - 1] == right[|right| - 1] && s[..|s| - 1] == left + core + right[..|right| - 1]
  {}

  /** Digits are read alike in either case. */
  lemma {:induction false} DigitsSame(s: string, t: string)
    requires SameDigits(s, t)
    ensures Digits(t) == Digits(s)
    decreases |s|
  {
    if s != [] {
      DigitsSame(s[..|s| - 1], t[..|t| - 1]);
      if |s| > 1 {
        NotUnderscore(s[|s| - 2]);
        NotUnderscore(t[|t| - 2]);
      }
      DigitsLast(s, DigitValue(s[|s| - 1]).value);
      DigitsLast(t, DigitValue(s[|s| - 1]).value);
    }
  }

  /** The last digit split off, behind another digit. */
  lemma DigitsLast(s: string, d: nat)
    requires s != [] && DigitValue(s[|s| - 1]) == Some(d) && (|s| > 1 ==> s[|s| - 2] != '_')
    ensures
      var high := Digits(s[..|s| - 1]);
      Digits(s) == if |s| == 1 then Some(d) else if high.None? then None else Some(16 * high.value + d)
  {}

  lemma DigitChars(t: string)
    requires forall k :: 0 <= k < |t| ==> DigitValue(t[k]).Some?
    ensures forall k :: 0 <= k < |t| ==> IsDigit(t[k])
  {}

  lemma NotUnderscore(c: char)
    requires DigitValue(c).Some?
    ensures c != '_' && IsDigit(c)
  {}

  /** The notations of one number that the parser reads alike: white space around it, a
      sign, the prefix 0x with or without an underscore, and letters of either case. */
  lemma LenientNumbers(left: string, sign: string, prefix: string, digits: string, v: nat, n: nat, right: string)
    requires Spaces(left) && Spaces(right) && n >= 1 && v < Pow16(n) && SameDigits(Hex(v, n), digits)
    requires sign in ["", "+", "-"] && prefix in ["", "0x", "0X", "0x_", "0X_"]
    ensures HexInt(left + (sign + prefix + digits) + right) == Some(if sign == "-" then 0 - v else v)
  {
    HexDigitsRoundTrip(v, n);
    DigitsSame(Hex(v, n), digits);
    DigitChars(digits);
    SignedNumber(sign, prefix, digits, v);
    StripSpaces(left, sign + prefix + digits, right);
  }

  /** So are data digits. */
  lemma {:induction false} UnhexlifySame(s: string, t: string)
    requires SameDigits(s, t)
    ensures Unhexlify(t) == Unhexlify(s)
  {
    if |s| >= 2 {
      UnhexlifySame(s[2..], t[2..]);
    }
  }

  lemma EitherCase(b: seq<Byte>, t: string)
    requires SameDigits(HexBytes(b), t)
    ensures Unhexlify(t) == Some(b)
  {
    UnhexlifyHex(b);
    UnhexlifySame(HexBytes(b), t);
  }

  /** Exactly the texts of an even number of digits are data. */
  lemma {:induction false} UnhexlifyIff(s: string)
    ensures Unhexlify(s).Some? <==> |s| % 2 == 0 && forall k :: 0 <= k < |s| ==> DigitValue(s[k]).Some?
  {
    if |s| >= 2 {
      UnhexlifyIff(s[2..]);
      assert forall k :: 2 <= k < |s| ==> s[k] == s[2..][k - 2];
    }
  }

  /** Digits, with underscores only between two of them. */
  predicate Legible(s: string)
  {
    && s != [] && DigitValue(s[0]).Some? && DigitValue(s[|s| - 1]).Some?
    && forall k :: 0 < k < |s| - 1 ==> LegibleAt(s, k)
  }

  predicate LegibleAt(s: string, k: nat)
    requires 0 < k < |s| - 1
  {
    DigitValue(s[k]).Some? || (s[k] == '_' && DigitValue(s[k - 1]).Some? && DigitValue(s[k + 1]).Some?)
  }

  /** Exactly these are the digits of a number. */
  lemma {:induction false} DigitsIff(s: string)
    ensures Digits(s).Some? <==> Legible(s)
    decreases |s|
  {
    if |s| > 1 && DigitValue(s[|s| - 1]).Some? {
      var m := if s[|s| - 2] == '_' then |s| - 2 else |s| - 1;
      DigitsIff(s[..m]);
      LegibleShorter(s, m);
      DigitsShorter(s, m);
    }
  }

  lemma DigitsShorter(s: string, m: nat)
    requires |s| > 1 && DigitValue(s[|s| - 1]).Some?
    requires m == if s[|s| - 2] == '_' then |s| - 2 else |s| - 1
    ensures Digits(s).Some? <==> Digits(s[..m]).Some?
  {}

  lemma LegibleShorter(s: string, m: nat)
    requires |s| > 1 && DigitValue(s[|s| - 1]).Some?
    requires m == if s[|s| - 2] == '_' then |s| - 2 else |s| - 1
    ensures Legible(s) <==> Legible(s[..m])
  {
    NoDigit();
    if Legible(s) {
      if |s| > 2 { assert LegibleAt(s, |s| - 2); }
      forall k | 0 < k < m - 1 ensures LegibleAt(s[..m], k) {
        assert LegibleAt(s, k);
      }
    } else if Legible(s[..m]) {
      forall k | 0 < k < |s| - 1 ensures LegibleAt(s, k) {
        if k < m - 1 { assert LegibleAt(s[..m], k); }
      }
    }
  }

  lemma NoDigit()
    ensures DigitValue('_').None?
  {}

  /** The white space among the ASCII characters. */
  lemma SpacesAre(c: char)
    requires c as int < 128
    ensures IsSpace(c) <==> c as int in {9, 10, 11, 12, 13, 28, 29, 30, 31, 32}
  {}

  /** A number in text: white space, a sign, a prefix, legible digits and white space. */
  predicate NumberParts(s: string, left: string, sign: string, prefix: string, digits: string, right: string)
  {
    && s == left + (sign + (prefix + digits)) + right && Spaces(left) && Spaces(right)
    && sign in ["", "+", "-"] && prefix in ["", "0x", "0X", "0x_", "0X_"] && Legible(digits)
  }

  ghost predicate NumberText(s: string)
  {
    exists left, sign, prefix, digits, right :: NumberParts(s, left, sign, prefix, digits, right)
  }

  lemma {:induction false} StripParts(s: string) returns (left: string, right: string)
    ensures s == left + Strip(s) + right && Spaces(left) && Spaces(right)
    decreases |s|
  {
    if s == [] {
      left, right := [], [];
    } else if IsSpace(s[0]) {
      left, right := StripParts(s[1..]);
      left := [s[0]] + left;
    } else if IsSpace(s[|s| - 1]) {
      left, right := StripParts(s[..|s| - 1]);
      right := right + [s[|s| - 1]];
    } else {
      left, right := [], [];
    }
  }

  lemma PrefixParts(rest: string) returns (prefix: string)
    ensures rest == prefix + WithoutPrefix(rest) && prefix in ["", "0x", "0X", "0x_", "0X_"]
  {
    prefix := rest[..|rest| - |WithoutPrefix(rest)|];
    if |prefix| == 2 {
      assert prefix == [rest[0], rest[1]];
    } else if |prefix| == 3 {
      assert prefix == [rest[0], rest[1], rest[2]];
    }
  }

  /** The number fields accept exactly these texts. */
  lemma NumberIff(s: string)
    ensures HexInt(s).Some? <==> NumberText(s)
  {
    if HexInt(s).Some? {
      NumberFound(s);
    }
    if NumberText(s) {
      var left, sign, prefix, digits, right :| NumberParts(s, left, sign, prefix, digits, right);
      NumberReadsAgain(s, left, sign, prefix, digits, right);
    }
  }

  lemma NumberFound(s: string)
    requires HexInt(s).Some?
    ensures NumberText(s)
  {
    var left, right := StripParts(s);
    var t := Strip(s);
    var sign := if t != [] && (t[0] == '+' || t[0] == '-') then t[..1] else [];
    var rest := t[|sign|..];
    assert t == sign + rest;
    var prefix := PrefixParts(rest);
    DigitsIff(WithoutPrefix(rest));
    SignIs(t);
    assert NumberParts(s, left, sign, prefix, WithoutPrefix(rest), right);
  }

  lemma SignIs(t: string)
    ensures t != [] && (t[0] == '+' || t[0] == '-') ==> t[..1] in ["", "+", "-"]
  {
    if t != [] {
      assert t[..1] == [t[0]];
    }
  }

  /** Legible digits have no prefix of their own. */
  lemma LegiblePlain(digits: string)
    requires Legible(digits)
    ensures WithoutPrefix(digits) == digits && IsDigit(digits[0]) && IsDigit(digits[|digits| - 1])
  {
    if |digits| >= 3 {
      assert LegibleAt(digits, 1);
    }
  }

  lemma NumberReadsAgain(s: string, left: string, sign: string, prefix: string, digits: string, right: string)
    requires NumberParts(s, left, sign, prefix, digits, right)
    ensures HexInt(s).Some?
  {
    var rest := prefix + digits;
    LegiblePlain(digits);
    DigitsIff(digits);
    PrefixOff(prefix, digits);
    NumberEnds(prefix, digits);
    WithSign(sign, rest, Digits(digits).value);
    StripSpaces(left, sign + rest, right);
  }

  /** The notation of a number, without white space around it. */
  ghost predicate NumberReads(core: string, v: int)
  {
    core != [] && !IsSpace(core[0]) && !IsSpace(core[|core| - 1]) && StrippedInt(core) == Some(v)
  }

  /** A number without a sign. */
  ghost predicate Unsigned(rest: string, v: nat)
  {
    rest != [] && IsDigit(rest[0]) && IsDigit(rest[|rest| - 1]) && Digits(WithoutPrefix(rest)) == Some(v)
  }

  lemma SignedNumber(sign: string, prefix: string, digits: string, v: nat)
    requires sign in ["", "+", "-"] && prefix in ["", "0x", "0X", "0x_", "0X_"]
    requires digits != [] && Digits(digits) == Some(v) && forall k :: 0 <= k < |digits| ==> IsDigit(digits[k])
    ensures NumberReads(sign + prefix + digits, if sign == "-" then 0 - v else v)
  {
    UnsignedNumber(prefix, digits, v);
    WithSign(sign, prefix + digits, v);
    ConcatThree(sign, prefix, digits);
  }

  lemma ConcatThree(a: string, b: string, c: string)
    ensures a + b + c == a + (b + c)
  {}

  lemma UnsignedNumber(prefix: string, digits: string, v: nat)
    requires prefix in ["", "0x", "0X", "0x_", "0X_"]
    requires digits != [] && Digits(digits) == Some(v) && forall k :: 0 <= k < |digits| ==> IsDigit(digits[k])
    ensures Unsigned(prefix + digits, v)
  {
    PrefixDropped(prefix, digits);
    NumberEnds(prefix, digits);
  }

  lemma NumberEnds(prefix: string, digits: string)
    requires prefix in ["", "0x", "0X", "0x_", "0X_"]
    requires digits != [] && IsDigit(digits[0]) && IsDigit(digits[|digits| - 1])
    ensures
      var rest := prefix + digits;
      rest != [] && IsDigit(rest[0]) && IsDigit(rest[|rest| - 1])
  {
    var rest := prefix + digits;
    assert rest[|rest| - 1] == digits[|digits| - 1];
    if prefix == "" {
      assert rest == digits;
    } else {
      assert rest[0] == prefix[0] == '0';
    }
  }

  lemma WithSign(sign: string, rest: string, v: nat)
    requires sign in ["", "+", "-"] && Unsigned(rest, v)
    ensures NumberReads(sign + rest, if sign == "-" then 0 - v else v)
  {
    if sign == "" {
      assert sign + rest == rest;
    } else if sign == "+" {
      BehindSign('+', rest, v);
    } else {
      BehindSign('-', rest, v);
    }
  }

  lemma BehindSign(sign: char, rest: string, v: nat)
    requires (sign == '+' || sign == '-') && Unsigned(rest, v)
    ensures NumberReads([sign] + rest, if sign == '-' then 0 - v else v)
  {
    var core := [sign] + rest;
    assert core[|core| - 1] == rest[|rest| - 1];
    assert core[1..] == rest;
  }

  lemma PrefixDropped(prefix: string, digits: string)
    requires prefix in ["", "0x", "0X", "0x_", "0X_"]
    requires digits != [] && forall k :: 0 <= k < |digits| ==> IsDigit(digits[k])
    ensures WithoutPrefix(prefix + digits) == digits
  {
    PrefixPlain(digits);
    PrefixOff(prefix, digits);
  }

  lemma PrefixOff(prefix: string, digits: string)
    requires prefix in ["", "0x", "0X", "0x_", "0X_"]
    requires digits != [] && IsDigit(digits[0]) && WithoutPrefix(digits) == digits
    ensures WithoutPrefix(prefix + digits) == digits
  {
    var s := prefix + digits;
    if prefix == "" {
      assert s == digits;
    } else if |prefix| == 2 {
      assert s[2] == digits[0] && s[2..] == digits;
    } else {
      assert s[3..] == digits;
    }
  }

  lemma HexByteRoundTrip(b: Byte)
    ensures HexInt(HexByte(b)) == Some(b)
  {
    assert Pow16(2) == 256 by { assert Pow16(1) == 16; }
    assert Hex(b, 2) == HexByte(b) by { assert Hex(b / 16, 1) == Hex(b / 256, 0) + [DigitChar(b / 16)]; }
    HexRoundTrip(b, 2);
  }

  lemma KindLength(kind: nat)
    requires 1 <= kind <= 3
    ensures AddrLen(['S', DigitChar(kind)]) == 2 * (kind + 1)
  {
    assert kind == 1 || kind == 2 || kind == 3;
    assert ['S', '1'] == "S1" && ['S', '2'] == "S2" && ['S', '3'] == "S3";
  }

  /** The parts of a record that the parser cuts out. */
  lemma SliceRecord(head: string, count: string, address: string, data: string, checksum: string, ending: string)
    requires |head| == 2 && |count| == 2 && |checksum| == 2
    ensures
      var body := address + data + checksum;
      var line := head + count + body + ending;
      && line[..2] == head && line[2..4] == count
      && Slice(line, 4, 4 + |body|) == body
      && Slice(body, 0, |address|) == address
      && Slice(body, |address|, 0 - 2) == data
  {}

  /** A printed record parses to itself. */
  lemma PrintedLine(i: Item, ended: bool)
    requires Printable(i)
    ensures ParseLine(Print(i, ended)) ==
      if i.Segment? then Data(Record(i.address, i.data)) else if i.Other? then Skip else Stop
  {
    match i
    case Other(_) =>
    case Short(_) =>
    case Segment(kind, address, data, checksum) =>
      var n := 2 * (kind + 1);
      KindLength(kind);
      HexByteRoundTrip(Count(i));
      HexRoundTrip(address, n);
      UnhexlifyHex(data);
      SliceRecord(['S', DigitChar(kind)], HexByte(Count(i)), Hex(address, n), HexBytes(data), HexByte(checksum), Ending(ended));
  }

  /** Header, count and end records are skipped, whatever they hold: S0 and S5 to S9. */
  lemma OthersSkipped(kind: char, count: Byte, rest: string)
    requires kind in "056789"
    ensures ParseLine(['S', kind] + HexByte(count) + rest) == Skip
  {
    var line := ['S', kind] + HexByte(count) + rest;
    HexByteRoundTrip(count);
    assert line[..2] == ['S', kind] && line[2..4] == HexByte(count);
  }

  /** The address field and the data field of a data record. */
  function AddressField(line: string, count: int, n: nat): (t: string)
  {
    Slice(Slice(line, 4, 4 + count * 2), 0, n)
  }

  function DataField(line: string, count: int, n: nat): (t: string)
  {
    Slice(Slice(line, 4, 4 + count * 2), n, 0 - 2)
  }

  /** What becomes of a line: it ends the parse exactly if it is shorter than four
      characters; with a legible count it is skipped exactly if it is not a data record;
      and it is rejected exactly if its count, or the address or the data of a data
      record with addresses of two, three or four bytes, is illegible. */
  lemma LineOutcomes(line: string)
    ensures ParseLine(line).Stop? <==> |line| < 4
    ensures |line| >= 4 && HexInt(line[2..4]).Some? ==> (ParseLine(line).Skip? <==> line[..2] !in {"S1", "S2", "S3"})
    ensures |line| >= 4 ==>
      var count := HexInt(line[2..4]);
      ParseLine(line).Fail? <==>
        || count.None?
        || (line[..2] == "S1" && (HexInt(AddressField(line, count.value, 4)).None? || Unhexlify(DataField(line, count.value, 4)).None?))
        || (line[..2] == "S2" && (HexInt(AddressField(line, count.value, 6)).None? || Unhexlify(DataField(line, count.value, 6)).None?))
        || (line[..2] == "S3" && (HexInt(AddressField(line, count.value, 8)).None? || Unhexlify(DataField(line, count.value, 8)).None?))
  {}

  lemma {:induction false} UnhexlifyOdd(s: string)
    requires |s| % 2 == 1
    ensures Unhexlify(s) == None
  {
    if |s| > 1 {
      UnhexlifyOdd(s[2..]);
    }
  }

  lemma {:induction false} HexPrefix(data: seq<Byte>, j: nat)
    requires j <= |data|
    ensures HexBytes(data)[..2 * j] == HexBytes(data[..j])
  {
    if j > 0 {
      HexPrefix(data[1..], j - 1);
      assert data[..j][1..] == data[1..][..j - 1];
      assert HexBytes(data)[..2 * j] == HexByte(data[0]) + HexBytes(data[1..])[..2 * (j - 1)];
    }
  }

  /** What is left as data of a line that ends before its count says: the parser takes
      two characters off its end, the newline among them. */
  lemma SliceTruncated(head: string, count: string, address: string, digits: string, ending: string, c: nat)
    requires |head| == 2 && |count| == 2 && |ending| <= 1 && 2 * c >= |address| + |digits| + |ending|
    ensures
      var body := address + digits + ending;
      var line := head + count + body;
      && line[..2] == head && line[2..4] == count
      && Slice(line, 4, 4 + c * 2) == body
      && Slice(body, 0, |address|) == address
      && Slice(body, |address|, 0 - 2) == digits[..Kept(|digits|, |ending|)]
  {}

  /** The data digits kept of q, with or without a newline. */
  function Kept(q: nat, e: nat): (r: nat)
    requires e <= 1
    ensures r <= q
  {
    if q + e <= 2 then 0 else q + e - 2
  }

  /** Data digits parse to the bytes that they print, or not at all. */
  lemma UnhexlifyPrefix(data: seq<Byte>, r: nat)
    requires r <= 2 * |data|
    ensures Unhexlify(HexBytes(data)[..r]) == if r % 2 == 1 then None else Some(data[..r / 2])
  {
    if r % 2 == 1 {
      UnhexlifyOdd(HexBytes(data)[..r]);
    } else {
      UnhexlifyWhole(data, r / 2, HexBytes(data)[..r]);
    }
  }

  lemma UnhexlifyWhole(data: seq<Byte>, j: nat, s: string)
    requires j <= |data| && s == HexBytes(data)[..2 * j]
    ensures Unhexlify(s) == Some(data[..j])
  {
    HexPrefix(data, j);
    UnhexlifyHex(data[..j]);
  }

  /** A record whose line ends behind q digits of its data and checksum, although its
      count promises more. */
  function Truncated(kind: nat, address: nat, bytes: seq<Byte>, q: nat, ended: bool, count: Byte): (line: string)
    requires 1 <= kind <= 3 && q <= 2 * |bytes|
  {
    ['S', DigitChar(kind)] + HexByte(count) + (Hex(address, 2 * (kind + 1)) + HexBytes(bytes)[..q] + Ending(ended))
  }

  lemma TruncatedParts(kind: nat, address: nat, bytes: seq<Byte>, q: nat, ended: bool, count: Byte)
    requires 1 <= kind <= 3 && q <= 2 * |bytes|
    requires 2 * count >= 2 * (kind + 1) + q + |Ending(ended)|
    ensures
      var n, line := 2 * (kind + 1), Truncated(kind, address, bytes, q, ended, count);
      && |line| >= 4 && line[..2] == ['S', DigitChar(kind)] && line[2..4] == HexByte(count)
      && Slice(Slice(line, 4, 4 + count * 2), 0, n) == Hex(address, n)
      && Slice(Slice(line, 4, 4 + count * 2), n, 0 - 2) == HexBytes(bytes)[..q][..Kept(q, |Ending(ended)|)]
  {
    SliceTruncated(['S', DigitChar(kind)], HexByte(count), Hex(address, 2 * (kind + 1)), HexBytes(bytes)[..q], Ending(ended), count);
  }

  lemma ParseParts(line: string, count: nat, n: nat, rest: string, address: nat, data: Option<seq<Byte>>)
    requires |line| >= 4 && HexInt(line[2..4]) == Some(count) && n > 0 && AddrLen(line[..2]) == n
    requires rest == Slice(line, 4, 4 + count * 2) && HexInt(Slice(rest, 0, n)) == Some(address)
    requires Unhexlify(Slice(rest, n, 0 - 2)) == data
    ensures ParseLine(line) == if data.None? then Fail(BadData) else Data(Record(address, data.value))
  {}

  /** A line cut short: of its data digits the parser drops the last one, and another if
      there is no newline. It rejects the line if an odd number is left, and otherwise
      takes it for a record of the bytes left. */
  lemma TruncatedLine(kind: nat, address: nat, bytes: seq<Byte>, q: nat, ended: bool, count: Byte)
    requires 1 <= kind <= 3 && address < Pow16(2 * (kind + 1)) && q <= 2 * |bytes|
    requires 2 * count >= 2 * (kind + 1) + q + |Ending(ended)|
    ensures
      var r := Kept(q, |Ending(ended)|);
      ParseLine(Truncated(kind, address, bytes, q, ended, count)) ==
        if r % 2 == 1 then Fail(BadData) else Data(Record(address, bytes[..r / 2]))
  {
    var r := Kept(q, |Ending(ended)|);
    KindLength(kind);
    HexByteRoundTrip(count);
    HexRoundTrip(address, 2 * (kind + 1));
    TruncatedParts(kind, address, bytes, q, ended, count);
    UnhexlifyPrefix(bytes, r);
    assert HexBytes(bytes)[..q][..r] == HexBytes(bytes)[..r];
    var line := Truncated(kind, address, bytes, q, ended, count);
    ParseParts(line, count, 2 * (kind + 1), Slice(line, 4, 4 + count * 2), address,
               if r % 2 == 1 then None else Some(bytes[..r / 2]));
  }

  predicate AllPrintable(items: seq<Item>)
  {
    forall k :: 0 <= k < |items| ==> Printable(items[k])
  }

  /** The lines of a file, the last one with or without its end. */
  function PrintAll(items: seq<Item>, ended: bool): (lines: seq<string>)
    requires AllPrintable(items)
    ensures |lines| == |items|
  {
    if items == [] then [] else PrintAll(items[..|items| - 1], true) + [Print(items[|items| - 1], ended)]
  }

  function RecordsOf(items: seq<Item>): (r: seq<Record>)
  {
    if items == [] then []
    else
      RecordsOf(items[..|items| - 1]) +
      if items[|items| - 1].Segment? then [Record(items[|items| - 1].address, items[|items| - 1].data)] else []
  }

  predicate HasShort(items: seq<Item>)
  {
    exists k :: 0 <= k < |items| && items[k].Short?
  }

  /** The items before the first short line. */
  function BeforeShort(items: seq<Item>): (before: seq<Item>)
    ensures before <= items && !HasShort(before)
    ensures HasShort(items) <==> |before| < |items|
    ensures HasShort(items) ==> items[|before|].Short?
  {
    if items == [] then []
    else
      var before := BeforeShort(items[..|items| - 1]);
      if HasShort(items[..|items| - 1]) || items[|items| - 1].Short? then before else items
  }

  ghost predicate ParsesBack(items: seq<Item>, ended: bool)
    requires AllPrintable(items)
  {
    ParseLines(PrintAll(items, ended)) == Parsed(RecordsOf(BeforeShort(items)), if HasShort(items) then Stopped else Going)
  }

  lemma ParseLast(items: seq<Item>, ended: bool)
    requires items != [] && AllPrintable(items)
    ensures
      var p := ParseLines(PrintAll(items[..|items| - 1], true));
      ParseLines(PrintAll(items, ended)) ==
        if p.status != Going then p else WithLine(p, ParseLine(Print(items[|items| - 1], ended)))
  {
    assert PrintAll(items, ended)[..|items| - 1] == PrintAll(items[..|items| - 1], true);
  }

  lemma HasShortLast(items: seq<Item>)
    requires items != []
    ensures HasShort(items) <==> HasShort(items[..|items| - 1]) || items[|items| - 1].Short?
  {}

  lemma RecordsNext(items: seq<Item>)
    requires items != []
    ensures RecordsOf(items) == RecordsOf(items[..|items| - 1]) +
      if items[|items| - 1].Segment? then [Record(items[|items| - 1].address, items[|items| - 1].data)] else []
  {}

  /** The first short line may come last. */
  lemma RecordsLast(items: seq<Item>)
    requires items != [] && !HasShort(items[..|items| - 1])
    ensures
      var init, last := items[..|items| - 1], items[|items| - 1];
      && HasShort(items) == last.Short?
      && BeforeShort(init) == init
      && BeforeShort(items) == if last.Short? then init else items
  {
    HasShortLast(items);
    NoShort(items[..|items| - 1]);
  }

  lemma NoShort(items: seq<Item>)
    requires !HasShort(items)
    ensures BeforeShort(items) == items
  {}

  lemma RecordsStay(items: seq<Item>)
    requires items != [] && HasShort(items[..|items| - 1])
    ensures HasShort(items) && BeforeShort(items) == BeforeShort(items[..|items| - 1])
  {}

  /** The round trip: for any list of segments, printed as S1, S2 or S3 records and
      interleaved with other lines, the parser returns exactly those before the first
      short line, if there is one, and so all of them if there is none. */
  lemma {:induction false} ParsePrinted(items: seq<Item>, ended: bool)
    requires AllPrintable(items)
    ensures ParsesBack(items, ended)
    ensures !HasShort(items) ==> BeforeShort(items) == items
  {
    if items != [] {
      var init, last := items[..|items| - 1], items[|items| - 1];
      ParsePrinted(init, true);
      PrintedLine(last, ended);
      ParseLast(items, ended);
      RecordsNext(items);
      if HasShort(init) { RecordsStay(items); } else { RecordsLast(items); }
    }
  }

  /** No segment stands behind a short line. */
  predicate NothingBehindShort(items: seq<Item>)
  {
    forall j, k :: 0 <= j < k < |items| && items[j].Short? ==> !items[k].Segment?
  }

  lemma {:induction false} RecordsLost(items: seq<Item>)
    ensures |RecordsOf(BeforeShort(items))| <= |RecordsOf(items)|
    ensures RecordsOf(BeforeShort(items)) == RecordsOf(items) <==> NothingBehindShort(items)
  {
    if items != [] {
      var init, last := items[..|items| - 1], items[|items| - 1];
      RecordsLost(init);
      if HasShort(init) && last.Segment? {
        assert !NothingBehindShort(items);
      }
    }
  }

  /** A line shorter than four characters, such as an empty one, ends the parse without
      an error. So all records of a file are read exactly if none stands behind such a
      line. */
  lemma ShortLineEnds(items: seq<Item>, ended: bool)
    requires AllPrintable(items)
    ensures ParseLines(PrintAll(items, ended)).records == RecordsOf(items) <==> NothingBehindShort(items)
    ensures !ParseLines(PrintAll(items, ended)).status.Failed?
  {
    ParsePrinted(items, ended);
    RecordsLost(items);
  }

  /** What an output reads back as, behind its header. */
  function ReadBehind(header: string, out: string, size: nat): (rom: Option<seq<Byte>>)
  {
    if |out| == |header| + 9 * (size / 4) && out[..|header|] == header then ReadWords(out[|header|..], size / 4) else None
  }

  function ReadBack(out: string, size: nat): (rom: Option<seq<Byte>>)
  {
    ReadBehind(HEADER, out, size)
  }

  lemma OutputReadsBehind(header: string, rom: seq<Byte>, n: nat)
    requires |rom| == 4 * n
    ensures ReadBehind(header, header + Words(rom, n), |rom|) == Some(rom)
  {
    WordsRoundTrip(rom, n);
    assert rom[..4 * n] == rom;
    assert |rom| / 4 == n;
    Behind(header, Words(rom, n));
  }

  lemma OutputReadsBack(rom: seq<Byte>)
    requires |rom| % 16 == 0
    ensures ReadBack(HEADER + Words(rom, |rom| / 4), |rom|) == Some(rom)
  {
    WholeWords(|rom|);
    OutputReadsBehind(HEADER, rom, |rom| / 4);
  }

  lemma Behind(a: string, b: string)
    ensures (a + b)[..|a|] == a && (a + b)[|a|..] == b
  {}

  /** The memory that some segments describe. */
  ghost predicate Describes(writes: seq<Write>, base: nat, rom: seq<Byte>)
  {
    forall a :: 0 <= a < |rom| ==> rom[a] == LastWrite(writes, base + a)
  }

  /** The outcome for some writes: success exactly if all are in range, or those out of
      range are to be ignored, and then an output that reads back as the memory that
      the writes describe. */
  ghost predicate Converts(writes: seq<Write>, base: nat, size: nat, force: bool, r: Result<string>)
  {
    && (r.Ok? <==> force || forall k :: 0 <= k < |writes| ==> InRange(writes[k], base, size))
    && (r.Ok? ==>
          && ReadBack(r.value, size).Some? && |ReadBack(r.value, size).value| == size
          && Describes(writes, base, ReadBack(r.value, size).value))
  }

  lemma StoredConverts(writes: seq<Write>, base: nat, size: nat, force: bool, r: Result<string>)
    requires size % 16 == 0
    requires r == Output(StoreAll(Zeros(size), writes, base, force))
    ensures Converts(writes, base, size, force, r)
  {
    RomHoldsLastWrites(writes, base, size, force);
    if r.Ok? {
      OutputReadsBack(StoreAll(Zeros(size), writes, base, force).value);
    }
  }

  /** The whole program on a printed file. */
  method ConvertPrinted(items: seq<Item>, ended: bool, base: nat, size: nat, force: bool) returns (r: Result<string>)
    requires AllPrintable(items) && base % 16 == 0 && size % 16 == 0
    ensures Converts(AllWrites(RecordsOf(BeforeShort(items))), base, size, force, r)
    ensures NothingBehindShort(items) ==> Converts(AllWrites(RecordsOf(items)), base, size, force, r)
  {
    ParsePrinted(items, ended);
    RecordsLost(items);
    r := Convert(PrintAll(items, ended), base, size, force);
    StoredConverts(AllWrites(RecordsOf(BeforeShort(items))), base, size, force, r);
  }
}
