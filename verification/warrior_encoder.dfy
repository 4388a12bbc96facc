/** The warrior serialiser and the genome initialiser
    (src/WarriorEncoder.cpp). A genome is GENOME_SIZE integers grouped into
    INSTR_COUNT records of INSTR_FIELDS fields; the serialiser writes a
    comment line, an `ORG 0` line and one `MOV a, b` line per record, where
    a and b are the record's A-value and B-value fields. The opcode and both
    addressing-mode fields are never read. */
module WarriorEncoder {
  import opened Config
  import opened Options
  import opened Decimal

  type Genome = seq<int>

  predicate ValidGenome(g: Genome) {
    |g| == GENOME_SIZE
  }

  const CommentLine: string := "; Evolved warrior"
  const OrgLine: string := "ORG 0"
  const Header: seq<string> := [CommentLine, OrgLine]
  const MovPrefix: string := "MOV "
  const OperandSeparator: string := ", "

  // ---------------------------------------------------------------------
  // Lines and text

  /** Terminates every line with a newline and concatenates them. */
  function JoinLines(lines: seq<string>): string {
    if |lines| == 0 then "" else lines[0] + "\n" + JoinLines(lines[1..])
  }

  /** First position of `c` in `s`, if any. */
  function FirstIndex(s: string, c: char): (r: Option<nat>)
    ensures r.Some? ==> r.value < |s| && s[r.value] == c
    ensures r.Some? ==> forall i :: 0 <= i < r.value ==> s[i] != c
    ensures r.None? <==> c !in s
  {
    if |s| == 0 then None
    else if s[0] == c then Some(0)
    else match FirstIndex(s[1..], c)
      case None => None
      case Some(j) => Some(j + 1)
  }

  /** Cuts a text into the lines it holds; a final newline ends the last line. */
  function SplitLines(text: string): seq<string>
    decreases |text|
  {
    if |text| == 0 then []
    else match FirstIndex(text, '\n')
      case None => [text]
      case Some(j) => [text[..j]] + SplitLines(text[j + 1..])
  }

  // ---------------------------------------------------------------------
  // Serialiser

  /** The operand pair (A-value, B-value) of instruction record k. */
  function RecordOperands(g: Genome, k: nat): (int, int)
    requires ValidGenome(g) && k < INSTR_COUNT
  {
    (g[INSTR_FIELDS * k + A_VALUE_FIELD], g[INSTR_FIELDS * k + B_VALUE_FIELD])
  }

  /** The operand pairs of all records, in record order. */
  function Operands(g: Genome): (ops: seq<(int, int)>)
    requires ValidGenome(g)
    ensures |ops| == INSTR_COUNT
    ensures forall k :: 0 <= k < INSTR_COUNT ==> ops[k] == RecordOperands(g, k)
  {
    seq(INSTR_COUNT, k requires 0 <= k < INSTR_COUNT => RecordOperands(g, k))
  }

  predicate IsMovLine(line: string) {
    |line| >= |MovPrefix| && line[..|MovPrefix|] == MovPrefix
  }

  /** One instruction line; the opcode is always MOV. */
  function InstrLine(a: int, b: int): string {
    MovPrefix + IntToDecimal(a) + OperandSeparator + IntToDecimal(b)
  }

  function InstrLines(ops: seq<(int, int)>): (lines: seq<string>)
    ensures |lines| == |ops|
  {
    seq(|ops|, k requires 0 <= k < |ops| => InstrLine(ops[k].0, ops[k].1))
  }

  /** The program as lines: header, then one MOV line per record. */
  function WarriorLines(g: Genome): (lines: seq<string>)
    requires ValidGenome(g)
    ensures |lines| == |Header| + INSTR_COUNT
    ensures lines[0] == CommentLine && lines[1] == OrgLine
    ensures forall k :: |Header| <= k < |lines| ==> IsMovLine(lines[k])
  {
    Header + InstrLines(Operands(g))
  }

  /** The program text written to the warrior file. */
  function WarriorText(g: Genome): string
    requires ValidGenome(g)
  {
    JoinLines(WarriorLines(g))
  }

  /** Text written once the first k records have been emitted. */
  function PartialText(g: Genome, k: nat): string
    requires ValidGenome(g) && k <= INSTR_COUNT
  {
    JoinLines(Header + InstrLines(Operands(g)[..k]))
  }

  lemma PartialTextStart(g: Genome)
    requires ValidGenome(g)
    ensures PartialText(g, 0) == CommentLine + "\n" + OrgLine + "\n"
  {
    assert Header + InstrLines(Operands(g)[..0]) == [CommentLine, OrgLine];
    assert JoinLines([CommentLine, OrgLine]) == CommentLine + "\n" + (OrgLine + "\n" + JoinLines([]));
  }

  lemma InstrLinesSnoc(ops: seq<(int, int)>, op: (int, int))
    ensures InstrLines(ops + [op]) == InstrLines(ops) + [InstrLine(op.0, op.1)]
  {
  }

  lemma PartialTextStep(g: Genome, k: nat)
    requires ValidGenome(g) && k < INSTR_COUNT
    ensures PartialText(g, k + 1)
         == PartialText(g, k) + InstrLine(g[INSTR_FIELDS * k + 2], g[INSTR_FIELDS * k + 4]) + "\n"
  {
    var ops := Operands(g);
    var op := ops[k];
    assert op == (g[INSTR_FIELDS * k + 2], g[INSTR_FIELDS * k + 4]);
    assert ops[..k + 1] == ops[..k] + [op];
    InstrLinesSnoc(ops[..k], op);
    var before := Header + InstrLines(ops[..k]);
    assert Header + InstrLines(ops[..k + 1]) == before + [InstrLine(op.0, op.1)];
    JoinLinesSnoc(before, InstrLine(op.0, op.1));
  }

  /** The serialiser: the two header lines, then a loop whose index i steps
      through the genome by INSTR_FIELDS, appending one MOV line per record
      as the output stream does. Every read g[i + 2] and g[i + 4] is in
      bounds because i is a multiple of INSTR_FIELDS below GENOME_SIZE. */
  method WriteWarrior(g: Genome) returns (text: string)
    requires ValidGenome(g)
    ensures text == WarriorText(g)
    ensures ParseWarrior(text) == Some(Operands(g))
  {
    text := CommentLine + "\n";
    text := text + OrgLine + "\n";
    PartialTextStart(g);
    var i := 0;
    ghost var k := 0;
    while i < GENOME_SIZE
      invariant 0 <= k <= INSTR_COUNT && i == INSTR_FIELDS * k
      invariant text == PartialText(g, k)
    {
      PartialTextStep(g, k);
      var line := MovPrefix + IntToDecimal(g[i + 2]) + OperandSeparator + IntToDecimal(g[i + 4]);
      text := text + line + "\n";
      i := i + INSTR_FIELDS;
      k := k + 1;
    }
    assert Operands(g)[..k] == Operands(g);
    ParseWarriorRoundTrip(g);
  }

  // ---------------------------------------------------------------------
  // Parser (the partner of the serialiser)

  /** Pairs two parsed integers; None unless both were read. */
  function BothParsed(a: Option<int>, b: Option<int>): Option<(int, int)> {
    if a.Some? && b.Some? then Some((a.value, b.value)) else None
  }

  /** Reads `<int>, <int>` into its two integers. */
  function ParseOperandPair(s: string): Option<(int, int)> {
    match FirstIndex(s, ',')
    case None => None
    case Some(j) =>
      if j + 1 < |s| && s[j + 1] == ' ' then BothParsed(ParseInt(s[..j]), ParseInt(s[j + 2..]))
      else None
  }

  /** Reads `MOV <int>, <int>` back into its operand pair. */
  function ParseInstrLine(line: string): Option<(int, int)> {
    if IsMovLine(line) then ParseOperandPair(line[|MovPrefix|..]) else None
  }

  function ParseInstrLines(lines: seq<string>): (r: Option<seq<(int, int)>>)
    ensures r.Some? ==> |r.value| == |lines|
  {
    if |lines| == 0 then Some([])
    else
      var p := ParseInstrLine(lines[0]);
      var ps := ParseInstrLines(lines[1..]);
      if p.Some? && ps.Some? then Some([p.value] + ps.value) else None
  }

  /** Reads a warrior text: the two header lines, then instruction lines. */
  function ParseWarrior(text: string): Option<seq<(int, int)>> {
    var lines := SplitLines(text);
    if |lines| < |Header| || lines[..|Header|] != Header then None
    else ParseInstrLines(lines[|Header|..])
  }

  // ---------------------------------------------------------------------
  // Lemmas

  lemma {:induction false} JoinLinesSnoc(lines: seq<string>, line: string)
    ensures JoinLines(lines + [line]) == JoinLines(lines) + line + "\n"
  {
    if |lines| > 0 {
      assert (lines + [line])[1..] == lines[1..] + [line];
      JoinLinesSnoc(lines[1..], line);
    }
  }

  /** Splitting a joined text gives back the lines, provided none of them
      holds a newline itself. */
  lemma {:induction false} SplitJoinLines(lines: seq<string>)
    requires forall k :: 0 <= k < |lines| ==> '\n' !in lines[k]
    ensures SplitLines(JoinLines(lines)) == lines
  {
    if |lines| > 0 {
      var l, tail := lines[0], JoinLines(lines[1..]);
      var text := l + ("\n" + tail);
      assert JoinLines(lines) == text;
      FirstIndexOfConcat(l, "\n" + tail, '\n');
      assert text[..|l|] == l;
      assert text[|l| + 1..] == tail;
      assert SplitLines(text) == [l] + SplitLines(tail);
      SplitJoinLines(lines[1..]);
    }
  }

  lemma {:induction false} FirstIndexOfConcat(s: string, t: string, c: char)
    requires c !in s && |t| > 0 && t[0] == c
    ensures FirstIndex(s + t, c) == Some(|s|)
  {
    if |s| > 0 {
      assert (s + t)[0] == s[0];
      assert (s + t)[1..] == s[1..] + t;
      FirstIndexOfConcat(s[1..], t, c);
    }
  }

  lemma IntToDecimalHasNoComma(x: int)
    ensures ',' !in IntToDecimal(x) && '\n' !in IntToDecimal(x)
  {
    var s := IntToDecimal(x);
    assert forall i :: 0 <= i < |s| ==> s[i] != ',' && s[i] != '\n';
  }

  lemma OperandPairRoundTrip(a: int, b: int)
    ensures ParseOperandPair(IntToDecimal(a) + OperandSeparator + IntToDecimal(b)) == Some((a, b))
  {
    var sa, sb := IntToDecimal(a), IntToDecimal(b);
    var s := sa + (OperandSeparator + sb);
    assert sa + OperandSeparator + sb == s;
    IntToDecimalHasNoComma(a);
    FirstIndexOfConcat(sa, OperandSeparator + sb, ',');
    assert s[..|sa|] == sa;
    assert s[|sa| + 2..] == sb;
    IntToDecimalRoundTrip(a);
    IntToDecimalRoundTrip(b);
  }

  /** Parsing an instruction line recovers the two operands it was written from. */
  lemma InstrLineRoundTrip(a: int, b: int)
    ensures ParseInstrLine(InstrLine(a, b)) == Some((a, b))
  {
    var line := InstrLine(a, b);
    var rest := IntToDecimal(a) + OperandSeparator + IntToDecimal(b);
    assert line == MovPrefix + rest;
    assert line[..|MovPrefix|] == MovPrefix;
    assert line[|MovPrefix|..] == rest;
    OperandPairRoundTrip(a, b);
  }

  lemma InstrLineHasNoNewline(a: int, b: int)
    ensures '\n' !in InstrLine(a, b)
  {
    var line := InstrLine(a, b);
    IntToDecimalHasNoComma(a);
    IntToDecimalHasNoComma(b);
    var la := |MovPrefix| + |IntToDecimal(a)|;
    forall i | 0 <= i < |line|
      ensures line[i] != '\n'
    {
      if i >= |MovPrefix| && i < la {
        assert line[i] == IntToDecimal(a)[i - |MovPrefix|];
      } else if i >= la + 2 {
        assert line[i] == IntToDecimal(b)[i - la - 2];
      }
    }
  }

  /** Lines that each parse to the matching pair parse, together, to all pairs. */
  lemma {:induction false} ParseInstrLinesAll(lines: seq<string>, ops: seq<(int, int)>)
    requires |lines| == |ops|
    requires forall i :: 0 <= i < |lines| ==> ParseInstrLine(lines[i]) == Some(ops[i])
    ensures ParseInstrLines(lines) == Some(ops)
  {
    if |lines| > 0 {
      ParseInstrLinesAll(lines[1..], ops[1..]);
      assert [ops[0]] + ops[1..] == ops;
    }
  }

  lemma ParseInstrLinesRoundTrip(ops: seq<(int, int)>)
    ensures ParseInstrLines(InstrLines(ops)) == Some(ops)
  {
    var lines := InstrLines(ops);
    forall i | 0 <= i < |lines|
      ensures ParseInstrLine(lines[i]) == Some(ops[i])
    {
      InstrLineRoundTrip(ops[i].0, ops[i].1);
    }
    ParseInstrLinesAll(lines, ops);
  }

  /** The text holds exactly the header and instruction lines, one per
      newline-terminated line. */
  lemma WarriorTextLines(g: Genome)
    requires ValidGenome(g)
    ensures SplitLines(WarriorText(g)) == WarriorLines(g)
  {
    var lines := WarriorLines(g);
    forall k | 0 <= k < |lines|
      ensures '\n' !in lines[k]
    {
      if k >= 2 {
        var op := Operands(g)[k - 2];
        InstrLineHasNoNewline(op.0, op.1);
      }
    }
    SplitJoinLines(lines);
  }

  /** Round trip of the whole program text: parsing it recovers every
      record's operand pair, in record order. */
  lemma ParseWarriorRoundTrip(g: Genome)
    requires ValidGenome(g)
    ensures ParseWarrior(WarriorText(g)) == Some(Operands(g))
  {
    var lines := WarriorLines(g);
    WarriorTextLines(g);
    assert lines[..|Header|] == Header;
    assert lines[|Header|..] == InstrLines(Operands(g));
    ParseInstrLinesRoundTrip(Operands(g));
  }

  /** Instruction line k parses back to the pair (g[5k+2], g[5k+4]). */
  lemma InstructionLineRoundTrip(g: Genome, k: nat)
    requires ValidGenome(g) && k < INSTR_COUNT
    ensures ParseInstrLine(WarriorLines(g)[|Header| + k])
         == Some((g[INSTR_FIELDS * k + 2], g[INSTR_FIELDS * k + 4]))
  {
    var a, b := g[INSTR_FIELDS * k + 2], g[INSTR_FIELDS * k + 4];
    assert Operands(g)[k] == (a, b);
    assert WarriorLines(g)[|Header| + k] == InstrLines(Operands(g))[k] == InstrLine(a, b);
    InstrLineRoundTrip(a, b);
  }

  /** The text depends on the A-value and B-value fields and on nothing
      else: two genomes give the same text exactly when every record has
      the same A-value and B-value in both. */
  lemma OnlyOperandFieldsMatter(g: Genome, h: Genome)
    requires ValidGenome(g) && ValidGenome(h)
    ensures WarriorText(g) == WarriorText(h)
        <==> forall k :: 0 <= k < INSTR_COUNT ==>
               g[INSTR_FIELDS * k + A_VALUE_FIELD] == h[INSTR_FIELDS * k + A_VALUE_FIELD]
               && g[INSTR_FIELDS * k + B_VALUE_FIELD] == h[INSTR_FIELDS * k + B_VALUE_FIELD]
  {
    if WarriorText(g) == WarriorText(h) {
      ParseWarriorRoundTrip(g);
      ParseWarriorRoundTrip(h);
      assert Operands(g) == Operands(h);
      forall k | 0 <= k < INSTR_COUNT
        ensures g[INSTR_FIELDS * k + A_VALUE_FIELD] == h[INSTR_FIELDS * k + A_VALUE_FIELD]
        ensures g[INSTR_FIELDS * k + B_VALUE_FIELD] == h[INSTR_FIELDS * k + B_VALUE_FIELD]
      {
        assert Operands(g)[k] == Operands(h)[k];
      }
    }
    if forall k :: 0 <= k < INSTR_COUNT ==>
         g[INSTR_FIELDS * k + A_VALUE_FIELD] == h[INSTR_FIELDS * k + A_VALUE_FIELD]
         && g[INSTR_FIELDS * k + B_VALUE_FIELD] == h[INSTR_FIELDS * k + B_VALUE_FIELD]
    {
      assert Operands(g) == Operands(h);
    }
  }

  /** Overwriting an opcode, A-mode or B-mode field leaves the text unchanged. */
  lemma NonOperandFieldIgnored(g: Genome, i: nat, v: int)
    requires ValidGenome(g) && i < GENOME_SIZE
    requires i % INSTR_FIELDS !in {A_VALUE_FIELD, B_VALUE_FIELD}
    ensures WarriorText(g[i := v]) == WarriorText(g)
  {
    var h := g[i := v];
    forall k | 0 <= k < INSTR_COUNT
      ensures RecordOperands(h, k) == RecordOperands(g, k)
    {
      assert i != INSTR_FIELDS * k + A_VALUE_FIELD && i != INSTR_FIELDS * k + B_VALUE_FIELD;
    }
    assert Operands(h) == Operands(g);
  }

  // ---------------------------------------------------------------------
  // Genome initialisation

  /** Lower and upper bound handed to the random generator. */
  const RAND_LO: int := -100
  const RAND_HI: int := 100

  /** A random source: `rand(lo, hi, n)` is the value of the n-th call of
      the generator with bounds lo and hi. */
  type RandomSource = (int, int, nat) -> int

  /** The generator's contract: every draw lies within the bounds asked for. */
  ghost predicate DrawsWithinBounds(rand: RandomSource) {
    forall lo, hi, n: nat :: lo <= hi ==> lo <= rand(lo, hi, n) <= hi
  }

  /** Overwrites every gene of `g0` with the next draw in [RAND_LO, RAND_HI]. */
  method InitGenome(g0: Genome, rand: RandomSource) returns (g: Genome)
    requires ValidGenome(g0)
    ensures ValidGenome(g)
    ensures forall i :: 0 <= i < GENOME_SIZE ==> g[i] == rand(RAND_LO, RAND_HI, i)
    ensures DrawsWithinBounds(rand) ==> forall i :: 0 <= i < GENOME_SIZE ==> RAND_LO <= g[i] <= RAND_HI
  {
    g := g0;
    var i := 0;
    while i < GENOME_SIZE
      invariant 0 <= i <= GENOME_SIZE && |g| == GENOME_SIZE
      invariant forall j :: 0 <= j < i ==> g[j] == rand(RAND_LO, RAND_HI, j)
    {
      g := g[i := rand(RAND_LO, RAND_HI, i)];
      i := i + 1;
    }
  }
}
