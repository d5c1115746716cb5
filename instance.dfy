/** The HHCRSP instance file and the instance record it holds.

    The file is modelled as a sequence of lines, and each line as the sequence of
    its whitespace-separated tokens. Python's int()/float() conversions and the
    str() formatting of numbers are abstracted by the Token datatype: an integer
    is written as IntTok, a float as FloatTok, and any other word (the section
    labels) as Word. This encoding is injective by construction. */
module HhcrspInstance {
  import opened Wrappers

  datatype Token = IntTok(i: int) | FloatTok(f: real) | Word(w: string)

  type Line = seq<Token>

  /** The fields of the instance, in the order the file lists them. Distances and
      processing times are floats in the source; they are exact reals here, so
      the rounding of Python's float arithmetic is not modelled. */
  datatype Instance = Instance(
    nbNodes: int,            // nodes, depot counted as node 0 and node nbNodes-1
    nbVehi: int,             // staff members (vehicles)
    nbServi: int,            // service types
    r: seq<seq<int>>,        // service requirement row per node
    DS: seq<int>,            // nodes that require a double service
    a: seq<seq<int>>,        // qualification row per vehicle
    x: seq<int>,             // x-coordinates of the nodes
    y: seq<int>,             // y-coordinates of the nodes
    d: seq<seq<real>>,       // distance matrix
    p: seq<seq<real>>,       // processing time rows, nbNodes * nbVehi of them
    mind: seq<int>,          // minimal gap between the two services of a node
    maxd: seq<int>,          // maximal gap between the two services of a node
    e: seq<int>,             // time-window begin per node
    l: seq<int>)             // time-window end per node

  /** The number of iterations of Python's range(n). */
  function Count(n: int): nat
  {
    if n < 0 then 0 else n
  }

  /** Python's int() on one token: only integer text converts. */
  function IntCell(t: Token): Option<int>
  {
    if t.IntTok? then Some(t.i) else None
  }

  /** Python's float() on one token: integer and float text both convert. */
  function FloatCell(t: Token): Option<real>
  {
    match t
    case IntTok(i) => Some(i as real)
    case FloatTok(f) => Some(f)
    case Word(_) => None
  }

  /** readline(): the line at index i, or the empty line once the file is exhausted. */
  function LineAt(lines: seq<Line>, i: nat): Line
  {
    if i < |lines| then lines[i] else []
  }

  /** Every token of the line converts. */
  ghost predicate AllConvert<T>(line: Line, cell: Token -> Option<T>)
  {
    forall j :: 0 <= j < |line| ==> cell(line[j]).Some?
  }

  /** The values are the line's tokens converted one by one, in order. */
  ghost predicate ConvertsTo<T>(line: Line, cell: Token -> Option<T>, vs: seq<T>)
  {
    |vs| == |line| && forall j :: 0 <= j < |line| ==> cell(line[j]) == Some(vs[j])
  }

  /** `[conv(x) for x in line.split()]`: every token converts, in order. */
  function ParseList<T>(line: Line, cell: Token -> Option<T>): Option<seq<T>>
  {
    if line == [] then Some([])
    else
      match (cell(line[0]), ParseList(line[1..], cell))
      case (Some(v), Some(vs)) => Some([v] + vs)
      case _ => None
  }

  /** A line converts exactly when each of its tokens does, and then into one
      value per token, in order. */
  lemma {:induction false} ParseListConverts<T>(line: Line, cell: Token -> Option<T>)
    ensures ParseList(line, cell).Some? <==> AllConvert(line, cell)
    ensures ParseList(line, cell).Some? ==> ConvertsTo(line, cell, ParseList(line, cell).value)
  {
    if line != [] {
      ParseListConverts(line[1..], cell);
      assert forall j :: 1 <= j < |line| ==> line[1..][j - 1] == line[j];
    }
  }

  /** `int(f.readline())`: the line must hold exactly one integer. */
  function ScalarAt(lines: seq<Line>, i: nat): (res: Result<int>)
    ensures res.Ok? <==> |LineAt(lines, i)| == 1 && LineAt(lines, i)[0].IntTok?
    ensures res.Ok? ==> LineAt(lines, i) == [IntTok(res.value)]
    ensures res.Err? ==> res.line == i
  {
    var line := LineAt(lines, i);
    if |line| == 1 && line[0].IntTok? then Ok(line[0].i) else Err(i)
  }

  /** One list line, read with the given per-token conversion. */
  function ListAt<T>(lines: seq<Line>, i: nat, cell: Token -> Option<T>): Result<seq<T>>
  {
    match ParseList(LineAt(lines, i), cell)
    case Some(v) => Ok(v)
    case None => Err(i)
  }

  /** A list line is read exactly when every token on it converts; the values
      are then its tokens converted in order, and otherwise the error names
      that line. */
  lemma ListAtReads<T>(lines: seq<Line>, i: nat, cell: Token -> Option<T>)
    ensures ListAt(lines, i, cell).Ok? <==> AllConvert(LineAt(lines, i), cell)
    ensures ListAt(lines, i, cell).Ok? ==> ConvertsTo(LineAt(lines, i), cell, ListAt(lines, i, cell).value)
    ensures ListAt(lines, i, cell).Err? ==> ListAt(lines, i, cell).line == i
  {
    ParseListConverts(LineAt(lines, i), cell);
  }

  /** Each line from `start` on converts to the corresponding row of `rows`. */
  ghost predicate SectionReads<T>(lines: seq<Line>, start: nat, rows: seq<seq<T>>, cell: Token -> Option<T>)
  {
    forall j :: 0 <= j < |rows| ==> ParseList(LineAt(lines, start + j), cell) == Some(rows[j])
  }

  /** The k rows of a section that starts at line `start`, one row per line. */
  function Rows<T>(lines: seq<Line>, start: nat, k: nat, cell: Token -> Option<T>): (res: Result<seq<seq<T>>>)
    ensures res.Ok? ==> |res.value| == k
    ensures res.Err? ==> start <= res.line < start + k
  {
    if k == 0 then Ok([])
    else
      var front :- Rows(lines, start, k - 1, cell);
      var row :- ListAt(lines, start + k - 1, cell);
      Ok(front + [row])
  }

  /** Where each section sits in the file, given the row counts of the four
      row sections: r and d have `nodes` rows, a has `vehicles` rows and p has
      `pRows` rows. Each data section is preceded by one label line. */
  datatype Layout = Layout(nodes: nat, vehicles: nat, pRows: nat) {
    function R(): nat { 7 }
    function DS(): nat { R() + nodes + 1 }
    function A(): nat { DS() + 2 }
    function X(): nat { A() + vehicles + 1 }
    function Y(): nat { X() + 2 }
    function D(): nat { Y() + 2 }
    function P(): nat { D() + nodes + 1 }
    function Mind(): nat { P() + pRows + 1 }
    function Maxd(): nat { Mind() + 2 }
    function E(): nat { Maxd() + 2 }
    function L(): nat { E() + 2 }
    /** The number of lines the loader reads. */
    function End(): nat { L() + 1 }

    /** Line i carries data (every other line the loader reads is a label). */
    predicate IsData(i: nat)
      ensures IsData(i) ==> i < End()
    {
      i == 1 || i == 3 || i == 5
      || (R() <= i < R() + nodes) || i == DS()
      || (A() <= i < A() + vehicles) || i == X() || i == Y()
      || (D() <= i < D() + nodes) || (P() <= i < P() + pRows)
      || i == Mind() || i == Maxd() || i == E() || i == L()
    }
  }

  /** The layout the loader follows once it has read nbNodes and nbVehi. */
  function LayoutOf(nbNodes: int, nbVehi: int): Layout
  {
    Layout(Count(nbNodes), Count(nbVehi), Count(nbNodes * nbVehi))
  }

  /** The loader as a function of the file's lines (HhcrspInstance.__init__). */
  function Parse(lines: seq<Line>): (res: Result<Instance>)
    ensures res.Ok? ==> |res.value.r| == Count(res.value.nbNodes) && |res.value.d| == Count(res.value.nbNodes)
    ensures res.Ok? ==> |res.value.a| == Count(res.value.nbVehi)
    ensures res.Ok? ==> |res.value.p| == Count(res.value.nbNodes * res.value.nbVehi)
  {
    var nbNodes :- ScalarAt(lines, 1);
    var nbVehi :- ScalarAt(lines, 3);
    var nbServi :- ScalarAt(lines, 5);
    var at := LayoutOf(nbNodes, nbVehi);
    var r :- Rows(lines, at.R(), at.nodes, IntCell);
    var DS :- ListAt(lines, at.DS(), IntCell);
    var a :- Rows(lines, at.A(), at.vehicles, IntCell);
    var x :- ListAt(lines, at.X(), IntCell);
    var y :- ListAt(lines, at.Y(), IntCell);
    var d :- Rows(lines, at.D(), at.nodes, FloatCell);
    var p :- Rows(lines, at.P(), at.pRows, FloatCell);
    var mind :- ListAt(lines, at.Mind(), IntCell);
    var maxd :- ListAt(lines, at.Maxd(), IntCell);
    var e :- ListAt(lines, at.E(), IntCell);
    var l :- ListAt(lines, at.L(), IntCell);
    Ok(Instance(nbNodes, nbVehi, nbServi, r, DS, a, x, y, d, p, mind, maxd, e, l))
  }

  /** A section that reads gives, for each of its lines, the row converted from
      that line. */
  lemma {:induction false} RowsConvertEachLine<T>(lines: seq<Line>, start: nat, k: nat, cell: Token -> Option<T>)
    requires Rows(lines, start, k, cell).Ok?
    ensures SectionReads(lines, start, Rows(lines, start, k, cell).value, cell)
  {
    if k > 0 {
      RowsConvertEachLine(lines, start, k - 1, cell);
      var front := Rows(lines, start, k - 1, cell).value;
      var row := ListAt(lines, start + k - 1, cell).value;
      assert Rows(lines, start, k, cell).value == front + [row];
    }
  }

  /** Once one row of a section fails to convert, the whole section fails there. */
  lemma {:induction false} RowsStopAtFirstError<T>(lines: seq<Line>, start: nat, j: nat, k: nat, cell: Token -> Option<T>)
    requires j <= k && Rows(lines, start, j, cell).Err?
    ensures Rows(lines, start, k, cell) == Rows(lines, start, j, cell)
  {
    if k > j {
      RowsStopAtFirstError(lines, start, j, k - 1, cell);
    }
  }

  /** The counted `for` loop that appends one converted row per line. */
  method ReadRows<T>(lines: seq<Line>, start: nat, k: nat, cell: Token -> Option<T>)
    returns (res: Result<seq<seq<T>>>, next: nat)
    ensures res == Rows(lines, start, k, cell)
    ensures res.Ok? ==> next == start + k
  {
    var rows: seq<seq<T>> := [];
    next := start;
    while next < start + k
      invariant start <= next <= start + k
      invariant Rows(lines, start, next - start, cell) == Ok(rows)
    {
      var row := ListAt(lines, next, cell);
      if row.Err? {
        RowsStopAtFirstError(lines, start, next - start + 1, k, cell);
        return Err(next), next;
      }
      rows := rows + [row.value];
      next := next + 1;
    }
    return Ok(rows), next;
  }

  /** HhcrspInstance.__init__: reads the file line by line through a cursor.
      `pos` is the line the next readline() returns: it passes over each label
      line and each data line as the source reads them. On success it is the
      number of lines the file format occupies for this instance. */
  method Load(lines: seq<Line>) returns (res: Result<Instance>, pos: nat)
    ensures res == Parse(lines)
    ensures res.Ok? ==> pos == LayoutOf(res.value.nbNodes, res.value.nbVehi).End()
  {
    pos := 1;                                        // past the label "nbNodes"
    var nbNodes :- ScalarAt(lines, pos);
    pos := pos + 2;                                  // past the data and the label "nbVehi"
    var nbVehi :- ScalarAt(lines, pos);
    pos := pos + 2;                                  // ... and the label "nbServi"
    var nbServi :- ScalarAt(lines, pos);
    pos := pos + 2;                                  // ... and the label "r"
    var at := LayoutOf(nbNodes, nbVehi);
    assert pos == at.R();
    var r;
    r, pos :- ReadRows(lines, pos, at.nodes, IntCell);
    pos := pos + 1;                                  // past the label "DS"
    assert pos == at.DS();
    var DS :- ListAt(lines, pos, IntCell);
    pos := pos + 2;                                  // past the data and the label "a"
    assert pos == at.A();
    var a;
    a, pos :- ReadRows(lines, pos, at.vehicles, IntCell);
    pos := pos + 1;                                  // past the label "x"
    assert pos == at.X();
    var x :- ListAt(lines, pos, IntCell);
    pos := pos + 2;                                  // ... and the label "y"
    assert pos == at.Y();
    var y :- ListAt(lines, pos, IntCell);
    pos := pos + 2;                                  // ... and the label "d"
    assert pos == at.D();
    var d;
    d, pos :- ReadRows(lines, pos, at.nodes, FloatCell);
    pos := pos + 1;                                  // past the label "p"
    assert pos == at.P();
    var p;
    p, pos :- ReadRows(lines, pos, at.pRows, FloatCell);
    pos := pos + 1;                                  // past the label "mind"
    assert pos == at.Mind();
    var mind :- ListAt(lines, pos, IntCell);
    pos := pos + 2;                                  // past the data and the label "maxd"
    assert pos == at.Maxd();
    var maxd :- ListAt(lines, pos, IntCell);
    pos := pos + 2;                                  // ... and the label "e"
    assert pos == at.E();
    var e :- ListAt(lines, pos, IntCell);
    pos := pos + 2;                                  // ... and the label "l"
    assert pos == at.L();
    var l :- ListAt(lines, pos, IntCell);
    pos := pos + 1;                                  // past the last data line
    res := Ok(Instance(nbNodes, nbVehi, nbServi, r, DS, a, x, y, d, p, mind, maxd, e, l));
  }

  // ---------------------------------------------------------------------------
  // The serialiser (HhcrspInstance.__str__)

  function IntEnc(v: int): Token { IntTok(v) }

  function FloatEnc(v: real): Token { FloatTok(v) }

  /** `' '.join(str(x) for x in xs)`: one token per value. */
  function Encode<T>(xs: seq<T>, enc: T -> Token): (line: Line)
    ensures |line| == |xs|
  {
    seq(|xs|, j requires 0 <= j < |xs| => enc(xs[j]))
  }

  /** One encoded line per row. */
  function EncodeRows<T>(rows: seq<seq<T>>, enc: T -> Token): (lines: seq<Line>)
    ensures |lines| == |rows|
  {
    seq(|rows|, j requires 0 <= j < |rows| => Encode(rows[j], enc))
  }

  /** `'\n'.join(rows) + '\n'`: no rows still give one (empty) line. */
  function Section(rowLines: seq<Line>): (s: seq<Line>)
    ensures |s| == if rowLines == [] then 1 else |rowLines|
  {
    if rowLines == [] then [[]] else rowLines
  }

  /** What a section holds: its rows, or one empty line when there are none. */
  lemma SectionLines(rowLines: seq<Line>)
    ensures rowLines == [] ==> Section(rowLines) == [[]]
    ensures rowLines != [] ==> Section(rowLines) == rowLines
  {
  }

  /** The fourteen label lines __str__ writes, in order. */
  const Labels: seq<Line> := [
    [Word("nbNodes")], [Word("nbVehi")], [Word("nbServi")], [Word("r")], [Word("DS")],
    [Word("a")], [Word("x")], [Word("y")], [Word("d")], [Word("p")],
    [Word("mind")], [Word("maxd")], [Word("e")], [Word("l")]]

  /** The fourteen labels, each followed by its data lines, in __str__'s order. */
  function Assemble(labels: seq<Line>, n: Line, v: Line, s: Line, rs: seq<Line>, ds: Line, vs: seq<Line>,
                    x: Line, y: Line, dd: seq<Line>, ps: seq<Line>, mind: Line, maxd: Line, e: Line, l: Line): seq<Line>
    requires |labels| == 14
  {
    [labels[0], n, labels[1], v, labels[2], s, labels[3]]
    + rs
    + [labels[4], ds, labels[5]]
    + vs
    + [labels[6], x, labels[7], y, labels[8]]
    + dd
    + [labels[9]]
    + ps
    + [labels[10], mind, labels[11], maxd, labels[12], e, labels[13], l]
  }

  /** The serialised lines with arbitrary label lines in place of __str__'s labels. */
  function SerialiseWith(labels: seq<Line>, inst: Instance): seq<Line>
    requires |labels| == 14
  {
    Assemble(labels, [IntTok(inst.nbNodes)], [IntTok(inst.nbVehi)], [IntTok(inst.nbServi)],
             Section(EncodeRows(inst.r, IntEnc)), Encode(inst.DS, IntEnc),
             Section(EncodeRows(inst.a, IntEnc)), Encode(inst.x, IntEnc), Encode(inst.y, IntEnc),
             Section(EncodeRows(inst.d, FloatEnc)), Section(EncodeRows(inst.p, FloatEnc)),
             Encode(inst.mind, IntEnc), Encode(inst.maxd, IntEnc), Encode(inst.e, IntEnc), Encode(inst.l, IntEnc))
  }

  /** HhcrspInstance.__str__, split into its lines (the text has no trailing newline). */
  function Serialise(inst: Instance): seq<Line>
  {
    SerialiseWith(Labels, inst)
  }

  /** The shape an instance must have to survive a serialise/load round trip. */
  predicate WellShaped(inst: Instance)
  {
    inst.nbNodes >= 1 && inst.nbVehi >= 1
    && |inst.r| == inst.nbNodes && |inst.d| == inst.nbNodes
    && |inst.a| == inst.nbVehi && |inst.p| == inst.nbNodes * inst.nbVehi
  }

  // ---------------------------------------------------------------------------
  // Round trip and what the loader reads

  /** `cell` converts back every token `enc` writes. */
  ghost predicate Decodes<T(!new)>(cell: Token -> Option<T>, enc: T -> Token)
  {
    forall v :: cell(enc(v)) == Some(v)
  }

  /** Python's int() and float() read back what str() writes. */
  lemma CellsDecode()
    ensures Decodes(IntCell, IntEnc) && Decodes(FloatCell, FloatEnc)
  {
  }

  /** The lines from `start` on hold `rows`, one encoded row per line. */
  ghost predicate SectionHolds<T>(lines: seq<Line>, start: nat, rows: seq<seq<T>>, enc: T -> Token)
  {
    forall j :: 0 <= j < |rows| ==> LineAt(lines, start + j) == Encode(rows[j], enc)
  }

  /** An encoded row converts back to the values it was written from. */
  lemma ParseEncoded<T(!new)>(xs: seq<T>, enc: T -> Token, cell: Token -> Option<T>)
    requires Decodes(cell, enc)
    ensures ParseList(Encode(xs, enc), cell) == Some(xs)
  {
    var line := Encode(xs, enc);
    assert forall j :: 0 <= j < |line| ==> cell(line[j]) == Some(xs[j]);
    ParseListConverts(line, cell);
    var r := ParseList(line, cell);
    assert r.Some? && |r.value| == |xs|;
    assert forall j :: 0 <= j < |xs| ==> r.value[j] == xs[j];
    assert r.value == xs;
  }

  /** A section of encoded rows is read back as those rows. */
  lemma {:induction false} RowsOfEncoded<T(!new)>(lines: seq<Line>, start: nat, rows: seq<seq<T>>, enc: T -> Token, cell: Token -> Option<T>)
    requires Decodes(cell, enc) && SectionHolds(lines, start, rows, enc)
    ensures Rows(lines, start, |rows|, cell) == Ok(rows)
  {
    if |rows| > 0 {
      var front := rows[..|rows| - 1];
      RowsOfEncoded(lines, start, front, enc, cell);
      ParseEncoded(rows[|rows| - 1], enc, cell);
      assert front + [rows[|rows| - 1]] == rows;
    }
  }

  /** The data lines of `lines` are those of `inst`, written as the serialiser
      writes them, at the positions the loader reads them from. Label lines and
      any lines after the last data line are unconstrained. */
  ghost predicate HoldsData(lines: seq<Line>, inst: Instance)
  {
    var at := LayoutOf(inst.nbNodes, inst.nbVehi);
    && LineAt(lines, 1) == [IntTok(inst.nbNodes)]
    && LineAt(lines, 3) == [IntTok(inst.nbVehi)]
    && LineAt(lines, 5) == [IntTok(inst.nbServi)]
    && SectionHolds(lines, at.R(), inst.r, IntEnc)
    && LineAt(lines, at.DS()) == Encode(inst.DS, IntEnc)
    && SectionHolds(lines, at.A(), inst.a, IntEnc)
    && LineAt(lines, at.X()) == Encode(inst.x, IntEnc)
    && LineAt(lines, at.Y()) == Encode(inst.y, IntEnc)
    && SectionHolds(lines, at.D(), inst.d, FloatEnc)
    && SectionHolds(lines, at.P(), inst.p, FloatEnc)
    && LineAt(lines, at.Mind()) == Encode(inst.mind, IntEnc)
    && LineAt(lines, at.Maxd()) == Encode(inst.maxd, IntEnc)
    && LineAt(lines, at.E()) == Encode(inst.e, IntEnc)
    && LineAt(lines, at.L()) == Encode(inst.l, IntEnc)
  }

  /** The lines `s` stand in `lines` from index `start` on. */
  ghost predicate RunAt(lines: seq<Line>, start: nat, s: seq<Line>)
  {
    forall j :: 0 <= j < |s| ==> LineAt(lines, start + j) == s[j]
  }

  /** Where the four row sections of an assembled text land. */
  lemma AssembledRows(labels: seq<Line>, n: Line, v: Line, s: Line, rs: seq<Line>, ds: Line, vs: seq<Line>,
                      x: Line, y: Line, dd: seq<Line>, ps: seq<Line>, mind: Line, maxd: Line, e: Line, l: Line)
    requires |labels| == 14
    ensures var lines := Assemble(labels, n, v, s, rs, ds, vs, x, y, dd, ps, mind, maxd, e, l);
      && RunAt(lines, 7, rs)
      && RunAt(lines, 10 + |rs|, vs)
      && RunAt(lines, 15 + |rs| + |vs|, dd)
      && RunAt(lines, 16 + |rs| + |vs| + |dd|, ps)
  {
  }

  /** Where the three scalar lines and the seven list lines of an assembled
      text land, and its length. */
  lemma AssembledLists(labels: seq<Line>, n: Line, v: Line, s: Line, rs: seq<Line>, ds: Line, vs: seq<Line>,
                       x: Line, y: Line, dd: seq<Line>, ps: seq<Line>, mind: Line, maxd: Line, e: Line, l: Line)
    requires |labels| == 14
    ensures var lines, k := Assemble(labels, n, v, s, rs, ds, vs, x, y, dd, ps, mind, maxd, e, l), |rs| + |vs| + |dd| + |ps|;
      && LineAt(lines, 1) == n && LineAt(lines, 3) == v && LineAt(lines, 5) == s
      && LineAt(lines, 8 + |rs|) == ds
      && LineAt(lines, 11 + |rs| + |vs|) == x && LineAt(lines, 13 + |rs| + |vs|) == y
      && LineAt(lines, 17 + k) == mind && LineAt(lines, 19 + k) == maxd
      && LineAt(lines, 21 + k) == e && LineAt(lines, 23 + k) == l
      && |lines| == 24 + k
  {
  }

  /** Where the fourteen label lines of an assembled text land. */
  lemma AssembledLabels(labels: seq<Line>, n: Line, v: Line, s: Line, rs: seq<Line>, ds: Line, vs: seq<Line>,
                        x: Line, y: Line, dd: seq<Line>, ps: seq<Line>, mind: Line, maxd: Line, e: Line, l: Line)
    requires |labels| == 14
    ensures var lines, k := Assemble(labels, n, v, s, rs, ds, vs, x, y, dd, ps, mind, maxd, e, l), |rs| + |vs| + |dd| + |ps|;
      && LineAt(lines, 0) == labels[0] && LineAt(lines, 2) == labels[1]
      && LineAt(lines, 4) == labels[2] && LineAt(lines, 6) == labels[3]
      && LineAt(lines, 7 + |rs|) == labels[4] && LineAt(lines, 9 + |rs|) == labels[5]
      && LineAt(lines, 10 + |rs| + |vs|) == labels[6] && LineAt(lines, 12 + |rs| + |vs|) == labels[7]
      && LineAt(lines, 14 + |rs| + |vs|) == labels[8] && LineAt(lines, 15 + |rs| + |vs| + |dd|) == labels[9]
      && LineAt(lines, 16 + k) == labels[10] && LineAt(lines, 18 + k) == labels[11]
      && LineAt(lines, 20 + k) == labels[12] && LineAt(lines, 22 + k) == labels[13]
  {
  }

  /** A run of encoded rows is a section holding those rows. */
  lemma RunHolds<T>(lines: seq<Line>, start: nat, rows: seq<seq<T>>, enc: T -> Token)
    requires rows != [] && RunAt(lines, start, Section(EncodeRows(rows, enc)))
    ensures SectionHolds(lines, start, rows, enc)
  {
    assert Section(EncodeRows(rows, enc)) == EncodeRows(rows, enc);
    forall j | 0 <= j < |rows|
      ensures LineAt(lines, start + j) == Encode(rows[j], enc)
    {
      assert EncodeRows(rows, enc)[j] == Encode(rows[j], enc);
    }
  }

  /** Where the r and a sections of the serialised text land. */
  lemma SerialisedFrontRuns(labels: seq<Line>, inst: Instance)
    requires |labels| == 14
    ensures var lines, rs := SerialiseWith(labels, inst), Section(EncodeRows(inst.r, IntEnc));
      && RunAt(lines, 7, rs)
      && RunAt(lines, 10 + |rs|, Section(EncodeRows(inst.a, IntEnc)))
  {
    AssembledRows(labels, [IntTok(inst.nbNodes)], [IntTok(inst.nbVehi)], [IntTok(inst.nbServi)],
                  Section(EncodeRows(inst.r, IntEnc)), Encode(inst.DS, IntEnc),
                  Section(EncodeRows(inst.a, IntEnc)), Encode(inst.x, IntEnc), Encode(inst.y, IntEnc),
                  Section(EncodeRows(inst.d, FloatEnc)), Section(EncodeRows(inst.p, FloatEnc)),
                  Encode(inst.mind, IntEnc), Encode(inst.maxd, IntEnc), Encode(inst.e, IntEnc), Encode(inst.l, IntEnc));
  }

  /** Where the d section of the serialised text lands. */
  lemma SerialisedDRun(labels: seq<Line>, inst: Instance)
    requires |labels| == 14
    ensures var rs, vs := Section(EncodeRows(inst.r, IntEnc)), Section(EncodeRows(inst.a, IntEnc));
      RunAt(SerialiseWith(labels, inst), 15 + |rs| + |vs|, Section(EncodeRows(inst.d, FloatEnc)))
  {
    AssembledRows(labels, [IntTok(inst.nbNodes)], [IntTok(inst.nbVehi)], [IntTok(inst.nbServi)],
                  Section(EncodeRows(inst.r, IntEnc)), Encode(inst.DS, IntEnc),
                  Section(EncodeRows(inst.a, IntEnc)), Encode(inst.x, IntEnc), Encode(inst.y, IntEnc),
                  Section(EncodeRows(inst.d, FloatEnc)), Section(EncodeRows(inst.p, FloatEnc)),
                  Encode(inst.mind, IntEnc), Encode(inst.maxd, IntEnc), Encode(inst.e, IntEnc), Encode(inst.l, IntEnc));
  }

  /** Where the p section of the serialised text lands. */
  lemma SerialisedPRun(labels: seq<Line>, inst: Instance)
    requires |labels| == 14
    ensures var rs, vs := Section(EncodeRows(inst.r, IntEnc)), Section(EncodeRows(inst.a, IntEnc));
      var dd := Section(EncodeRows(inst.d, FloatEnc));
      RunAt(SerialiseWith(labels, inst), 16 + |rs| + |vs| + |dd|, Section(EncodeRows(inst.p, FloatEnc)))
  {
    AssembledRows(labels, [IntTok(inst.nbNodes)], [IntTok(inst.nbVehi)], [IntTok(inst.nbServi)],
                  Section(EncodeRows(inst.r, IntEnc)), Encode(inst.DS, IntEnc),
                  Section(EncodeRows(inst.a, IntEnc)), Encode(inst.x, IntEnc), Encode(inst.y, IntEnc),
                  Section(EncodeRows(inst.d, FloatEnc)), Section(EncodeRows(inst.p, FloatEnc)),
                  Encode(inst.mind, IntEnc), Encode(inst.maxd, IntEnc), Encode(inst.e, IntEnc), Encode(inst.l, IntEnc));
  }

  /** Where the three scalar lines and the seven list lines of the serialised
      text land, and its length. */
  lemma SerialisedLists(labels: seq<Line>, inst: Instance)
    requires |labels| == 14
    ensures var lines := SerialiseWith(labels, inst);
      var rs, vs := Section(EncodeRows(inst.r, IntEnc)), Section(EncodeRows(inst.a, IntEnc));
      var k := |rs| + |vs| + |Section(EncodeRows(inst.d, FloatEnc))| + |Section(EncodeRows(inst.p, FloatEnc))|;
      && LineAt(lines, 1) == [IntTok(inst.nbNodes)]
      && LineAt(lines, 3) == [IntTok(inst.nbVehi)]
      && LineAt(lines, 5) == [IntTok(inst.nbServi)]
      && LineAt(lines, 8 + |rs|) == Encode(inst.DS, IntEnc)
      && LineAt(lines, 11 + |rs| + |vs|) == Encode(inst.x, IntEnc)
      && LineAt(lines, 13 + |rs| + |vs|) == Encode(inst.y, IntEnc)
      && LineAt(lines, 17 + k) == Encode(inst.mind, IntEnc)
      && LineAt(lines, 19 + k) == Encode(inst.maxd, IntEnc)
      && LineAt(lines, 21 + k) == Encode(inst.e, IntEnc)
      && LineAt(lines, 23 + k) == Encode(inst.l, IntEnc)
      && |lines| == 24 + k
  {
    AssembledLists(labels, [IntTok(inst.nbNodes)], [IntTok(inst.nbVehi)], [IntTok(inst.nbServi)],
                   Section(EncodeRows(inst.r, IntEnc)), Encode(inst.DS, IntEnc),
                   Section(EncodeRows(inst.a, IntEnc)), Encode(inst.x, IntEnc), Encode(inst.y, IntEnc),
                   Section(EncodeRows(inst.d, FloatEnc)), Section(EncodeRows(inst.p, FloatEnc)),
                   Encode(inst.mind, IntEnc), Encode(inst.maxd, IntEnc), Encode(inst.e, IntEnc), Encode(inst.l, IntEnc));
  }

  /** For a well-shaped instance the four row sections have exactly as many
      lines as the loader reads. */
  lemma SectionSizes(inst: Instance)
    requires WellShaped(inst)
    ensures |Section(EncodeRows(inst.r, IntEnc))| == inst.nbNodes
    ensures |Section(EncodeRows(inst.a, IntEnc))| == inst.nbVehi
    ensures |Section(EncodeRows(inst.d, FloatEnc))| == inst.nbNodes
    ensures |Section(EncodeRows(inst.p, FloatEnc))| == inst.nbNodes * inst.nbVehi
    ensures LayoutOf(inst.nbNodes, inst.nbVehi) == Layout(inst.nbNodes, inst.nbVehi, inst.nbNodes * inst.nbVehi)
  {
    assert inst.nbNodes * inst.nbVehi >= 1;
  }

  /** The serialiser writes the header and the seven list lines where the
      loader reads them, and as many lines as the loader reads. */
  lemma SerialisedScalars(labels: seq<Line>, inst: Instance)
    requires |labels| == 14 && WellShaped(inst)
    ensures var lines, at := SerialiseWith(labels, inst), LayoutOf(inst.nbNodes, inst.nbVehi);
      && LineAt(lines, 1) == [IntTok(inst.nbNodes)]
      && LineAt(lines, 3) == [IntTok(inst.nbVehi)]
      && LineAt(lines, 5) == [IntTok(inst.nbServi)]
      && LineAt(lines, at.DS()) == Encode(inst.DS, IntEnc)
      && LineAt(lines, at.X()) == Encode(inst.x, IntEnc)
      && LineAt(lines, at.Y()) == Encode(inst.y, IntEnc)
      && LineAt(lines, at.Mind()) == Encode(inst.mind, IntEnc)
      && LineAt(lines, at.Maxd()) == Encode(inst.maxd, IntEnc)
      && LineAt(lines, at.E()) == Encode(inst.e, IntEnc)
      && LineAt(lines, at.L()) == Encode(inst.l, IntEnc)
      && |lines| == at.End()
  {
    SerialisedLists(labels, inst);
    SectionSizes(inst);
  }

  /** Where the fourteen label lines of the serialised text land, by the
      lengths of the row sections before them. */
  lemma SerialisedLabelLines(labels: seq<Line>, inst: Instance)
    requires |labels| == 14
    ensures var lines := SerialiseWith(labels, inst);
      var rs, vs := |Section(EncodeRows(inst.r, IntEnc))|, |Section(EncodeRows(inst.a, IntEnc))|;
      var dd := |Section(EncodeRows(inst.d, FloatEnc))|;
      var k := rs + vs + dd + |Section(EncodeRows(inst.p, FloatEnc))|;
      && LineAt(lines, 0) == labels[0] && LineAt(lines, 2) == labels[1]
      && LineAt(lines, 4) == labels[2] && LineAt(lines, 6) == labels[3]
      && LineAt(lines, 7 + rs) == labels[4] && LineAt(lines, 9 + rs) == labels[5]
      && LineAt(lines, 10 + rs + vs) == labels[6] && LineAt(lines, 12 + rs + vs) == labels[7]
      && LineAt(lines, 14 + rs + vs) == labels[8] && LineAt(lines, 15 + rs + vs + dd) == labels[9]
      && LineAt(lines, 16 + k) == labels[10] && LineAt(lines, 18 + k) == labels[11]
      && LineAt(lines, 20 + k) == labels[12] && LineAt(lines, 22 + k) == labels[13]
  {
    AssembledLabels(labels, [IntTok(inst.nbNodes)], [IntTok(inst.nbVehi)], [IntTok(inst.nbServi)],
                    Section(EncodeRows(inst.r, IntEnc)), Encode(inst.DS, IntEnc),
                    Section(EncodeRows(inst.a, IntEnc)), Encode(inst.x, IntEnc), Encode(inst.y, IntEnc),
                    Section(EncodeRows(inst.d, FloatEnc)), Section(EncodeRows(inst.p, FloatEnc)),
                    Encode(inst.mind, IntEnc), Encode(inst.maxd, IntEnc), Encode(inst.e, IntEnc), Encode(inst.l, IntEnc));
  }

  /** The line just before each block of data is one the loader skips. */
  lemma LabelLinesSkipped(at: Layout)
    ensures forall i :: i in [0, 2, 4, at.R() - 1, at.DS() - 1, at.A() - 1, at.X() - 1, at.Y() - 1,
                              at.D() - 1, at.P() - 1, at.Mind() - 1, at.Maxd() - 1, at.E() - 1, at.L() - 1]
                        ==> !at.IsData(i)
  {
  }

  /** __str__ writes each label on the line just before the data the loader
      reads after it. */
  lemma SerialisedLabels(inst: Instance)
    requires WellShaped(inst)
    ensures var lines, at := Serialise(inst), LayoutOf(inst.nbNodes, inst.nbVehi);
      && LineAt(lines, 0) == [Word("nbNodes")] && LineAt(lines, 2) == [Word("nbVehi")]
      && LineAt(lines, 4) == [Word("nbServi")] && LineAt(lines, at.R() - 1) == [Word("r")]
      && LineAt(lines, at.DS() - 1) == [Word("DS")] && LineAt(lines, at.A() - 1) == [Word("a")]
      && LineAt(lines, at.X() - 1) == [Word("x")] && LineAt(lines, at.Y() - 1) == [Word("y")]
      && LineAt(lines, at.D() - 1) == [Word("d")] && LineAt(lines, at.P() - 1) == [Word("p")]
      && LineAt(lines, at.Mind() - 1) == [Word("mind")] && LineAt(lines, at.Maxd() - 1) == [Word("maxd")]
      && LineAt(lines, at.E() - 1) == [Word("e")] && LineAt(lines, at.L() - 1) == [Word("l")]
  {
    SerialisedLabelLines(Labels, inst);
    SectionSizes(inst);
  }

  /** The serialiser writes the r section where the loader reads it. */
  lemma SerialisedRSection(labels: seq<Line>, inst: Instance)
    requires |labels| == 14 && WellShaped(inst)
    ensures SectionHolds(SerialiseWith(labels, inst), LayoutOf(inst.nbNodes, inst.nbVehi).R(), inst.r, IntEnc)
  {
    var lines := SerialiseWith(labels, inst);
    assert RunAt(lines, 7, Section(EncodeRows(inst.r, IntEnc))) by { SerialisedFrontRuns(labels, inst); }
    RunHolds(lines, 7, inst.r, IntEnc);
  }

  /** The serialiser writes the a section where the loader reads it. */
  lemma SerialisedASection(labels: seq<Line>, inst: Instance)
    requires |labels| == 14 && WellShaped(inst)
    ensures SectionHolds(SerialiseWith(labels, inst), LayoutOf(inst.nbNodes, inst.nbVehi).A(), inst.a, IntEnc)
  {
    var lines, start := SerialiseWith(labels, inst), LayoutOf(inst.nbNodes, inst.nbVehi).A();
    assert inst.a != [] && RunAt(lines, start, Section(EncodeRows(inst.a, IntEnc))) by {
      var N, V := inst.nbNodes, inst.nbVehi;
      SerialisedFrontRuns(labels, inst);
      SectionSizes(inst);
      assert start == 10 + N == 10 + |Section(EncodeRows(inst.r, IntEnc))|;
    }
    RunHolds(lines, start, inst.a, IntEnc);
  }

  /** The serialiser writes the d section where the loader reads it. */
  lemma SerialisedDSection(labels: seq<Line>, inst: Instance)
    requires |labels| == 14 && WellShaped(inst)
    ensures SectionHolds(SerialiseWith(labels, inst), LayoutOf(inst.nbNodes, inst.nbVehi).D(), inst.d, FloatEnc)
  {
    var lines, start := SerialiseWith(labels, inst), LayoutOf(inst.nbNodes, inst.nbVehi).D();
    assert inst.d != [] && RunAt(lines, start, Section(EncodeRows(inst.d, FloatEnc))) by {
      var N, V := inst.nbNodes, inst.nbVehi;
      SerialisedDRun(labels, inst);
      SectionSizes(inst);
      assert start == 15 + N + V == 15 + |Section(EncodeRows(inst.r, IntEnc))| + |Section(EncodeRows(inst.a, IntEnc))|;
    }
    RunHolds(lines, start, inst.d, FloatEnc);
  }

  /** The serialiser writes the p section where the loader reads it. */
  lemma SerialisedPSection(labels: seq<Line>, inst: Instance)
    requires |labels| == 14 && WellShaped(inst)
    ensures SectionHolds(SerialiseWith(labels, inst), LayoutOf(inst.nbNodes, inst.nbVehi).P(), inst.p, FloatEnc)
  {
    var lines, start := SerialiseWith(labels, inst), LayoutOf(inst.nbNodes, inst.nbVehi).P();
    assert inst.p != [] && RunAt(lines, start, Section(EncodeRows(inst.p, FloatEnc))) by {
      var N, V := inst.nbNodes, inst.nbVehi;
      SerialisedPRun(labels, inst);
      SectionSizes(inst);
      assert start == 16 + N + V + N == 16 + |Section(EncodeRows(inst.r, IntEnc))| + |Section(EncodeRows(inst.a, IntEnc))| + |Section(EncodeRows(inst.d, FloatEnc))|;
    }
    RunHolds(lines, start, inst.p, FloatEnc);
  }

  /** The serialiser puts every field where the loader looks for it, and writes
      exactly as many lines as the loader reads: 24 + 2 nbNodes + nbVehi +
      nbNodes * nbVehi. */
  lemma SerialisedLayout(labels: seq<Line>, inst: Instance)
    requires |labels| == 14 && WellShaped(inst)
    ensures HoldsData(SerialiseWith(labels, inst), inst)
    ensures |SerialiseWith(labels, inst)| == LayoutOf(inst.nbNodes, inst.nbVehi).End()
    ensures |SerialiseWith(labels, inst)| == 24 + 2 * inst.nbNodes + inst.nbVehi + inst.nbNodes * inst.nbVehi
  {
    assert inst.nbNodes * inst.nbVehi >= 1;
    SerialisedScalars(labels, inst);
    SerialisedRSection(labels, inst);
    SerialisedASection(labels, inst);
    SerialisedDSection(labels, inst);
    SerialisedPSection(labels, inst);
  }

  /** The loader succeeds exactly with `inst` when every section it reads
      converts to the corresponding field of `inst`. */
  lemma ParseOfSections(lines: seq<Line>, inst: Instance, at: Layout)
    requires at == LayoutOf(inst.nbNodes, inst.nbVehi)
    requires ScalarAt(lines, 1) == Ok(inst.nbNodes) && ScalarAt(lines, 3) == Ok(inst.nbVehi)
    requires ScalarAt(lines, 5) == Ok(inst.nbServi)
    requires Rows(lines, at.R(), at.nodes, IntCell) == Ok(inst.r)
    requires ListAt(lines, at.DS(), IntCell) == Ok(inst.DS)
    requires Rows(lines, at.A(), at.vehicles, IntCell) == Ok(inst.a)
    requires ListAt(lines, at.X(), IntCell) == Ok(inst.x) && ListAt(lines, at.Y(), IntCell) == Ok(inst.y)
    requires Rows(lines, at.D(), at.nodes, FloatCell) == Ok(inst.d)
    requires Rows(lines, at.P(), at.pRows, FloatCell) == Ok(inst.p)
    requires ListAt(lines, at.Mind(), IntCell) == Ok(inst.mind) && ListAt(lines, at.Maxd(), IntCell) == Ok(inst.maxd)
    requires ListAt(lines, at.E(), IntCell) == Ok(inst.e) && ListAt(lines, at.L(), IntCell) == Ok(inst.l)
    ensures Parse(lines) == Ok(inst)
  {
  }

  /** The four row sections of a file holding `inst` read back. */
  lemma RowSectionsOfData(lines: seq<Line>, inst: Instance, at: Layout)
    requires WellShaped(inst) && HoldsData(lines, inst) && at == LayoutOf(inst.nbNodes, inst.nbVehi)
    ensures Rows(lines, at.R(), at.nodes, IntCell) == Ok(inst.r)
    ensures Rows(lines, at.A(), at.vehicles, IntCell) == Ok(inst.a)
    ensures Rows(lines, at.D(), at.nodes, FloatCell) == Ok(inst.d)
    ensures Rows(lines, at.P(), at.pRows, FloatCell) == Ok(inst.p)
  {
    assert inst.nbNodes * inst.nbVehi >= 1;
    assert at == Layout(|inst.r|, |inst.a|, |inst.p|);
    CellsDecode();
    RowsOfEncoded(lines, at.R(), inst.r, IntEnc, IntCell);
    RowsOfEncoded(lines, at.A(), inst.a, IntEnc, IntCell);
    RowsOfEncoded(lines, at.D(), inst.d, FloatEnc, FloatCell);
    RowsOfEncoded(lines, at.P(), inst.p, FloatEnc, FloatCell);
  }

  /** The seven single-line lists of a file holding `inst` read back. */
  lemma ListSectionsOfData(lines: seq<Line>, inst: Instance, at: Layout)
    requires HoldsData(lines, inst) && at == LayoutOf(inst.nbNodes, inst.nbVehi)
    ensures ListAt(lines, at.DS(), IntCell) == Ok(inst.DS)
    ensures ListAt(lines, at.X(), IntCell) == Ok(inst.x) && ListAt(lines, at.Y(), IntCell) == Ok(inst.y)
    ensures ListAt(lines, at.Mind(), IntCell) == Ok(inst.mind) && ListAt(lines, at.Maxd(), IntCell) == Ok(inst.maxd)
    ensures ListAt(lines, at.E(), IntCell) == Ok(inst.e) && ListAt(lines, at.L(), IntCell) == Ok(inst.l)
  {
    CellsDecode();
    ListOfEncoded(lines, at.DS(), inst.DS, IntEnc, IntCell);
    ListOfEncoded(lines, at.X(), inst.x, IntEnc, IntCell);
    ListOfEncoded(lines, at.Y(), inst.y, IntEnc, IntCell);
    ListOfEncoded(lines, at.Mind(), inst.mind, IntEnc, IntCell);
    ListOfEncoded(lines, at.Maxd(), inst.maxd, IntEnc, IntCell);
    ListOfEncoded(lines, at.E(), inst.e, IntEnc, IntCell);
    ListOfEncoded(lines, at.L(), inst.l, IntEnc, IntCell);
  }

  /** Any file whose data lines encode a well-shaped instance loads as that
      instance: the loader never looks at label lines or at what follows the
      last data line. */
  lemma ParseHoldsData(lines: seq<Line>, inst: Instance)
    requires WellShaped(inst) && HoldsData(lines, inst)
    ensures Parse(lines) == Ok(inst)
  {
    var at := LayoutOf(inst.nbNodes, inst.nbVehi);
    RowSectionsOfData(lines, inst, at);
    ListSectionsOfData(lines, inst, at);
    ParseOfSections(lines, inst, at);
  }

  /** Loading what the serialiser wrote gives back the instance, whatever text
      stands on the fourteen label lines. */
  lemma RoundTripWithAnyLabels(labels: seq<Line>, inst: Instance)
    requires |labels| == 14 && WellShaped(inst)
    ensures Parse(SerialiseWith(labels, inst)) == Ok(inst)
  {
    SerialisedLayout(labels, inst);
    ParseHoldsData(SerialiseWith(labels, inst), inst);
  }

  /** A list line written by the serialiser reads back as the list. */
  lemma ListOfEncoded<T(!new)>(lines: seq<Line>, i: nat, xs: seq<T>, enc: T -> Token, cell: Token -> Option<T>)
    requires Decodes(cell, enc) && LineAt(lines, i) == Encode(xs, enc)
    ensures ListAt(lines, i, cell) == Ok(xs)
  {
    ParseEncoded(xs, enc, cell);
  }


  /** Load(Serialise(inst)) == inst for every well-shaped instance. */
  lemma RoundTrip(inst: Instance)
    requires WellShaped(inst)
    ensures Parse(Serialise(inst)) == Ok(inst)
  {
    RoundTripWithAnyLabels(Labels, inst);
  }

  // ---------------------------------------------------------------------------
  // Which lines the loader reads

  /** Two files agree on line i (a line past the end reads as empty). */
  ghost predicate SameLine(lines: seq<Line>, lines': seq<Line>, i: nat)
  {
    LineAt(lines, i) == LineAt(lines', i)
  }

  /** The layout announced by the file's nbNodes and nbVehi lines. */
  function HeaderLayout(lines: seq<Line>): Result<Layout>
  {
    var nbNodes :- ScalarAt(lines, 1);
    var nbVehi :- ScalarAt(lines, 3);
    Ok(LayoutOf(nbNodes, nbVehi))
  }

  /** A row section depends only on its own lines. */
  lemma {:induction false} RowsFrame<T>(lines: seq<Line>, lines': seq<Line>, start: nat, k: nat, cell: Token -> Option<T>)
    requires forall i :: start <= i < start + k ==> SameLine(lines, lines', i)
    ensures Rows(lines, start, k, cell) == Rows(lines', start, k, cell)
  {
    if k > 0 {
      RowsFrame(lines, lines', start, k - 1, cell);
      assert SameLine(lines, lines', start + k - 1);
      var front, front' := Rows(lines, start, k - 1, cell), Rows(lines', start, k - 1, cell);
      var row, row' := ListAt(lines, start + k - 1, cell), ListAt(lines', start + k - 1, cell);
      assert front == front' && row == row';
    }
  }

  /** Two files whose sections convert alike load alike. */
  lemma ParseOfEqualSections(lines: seq<Line>, lines': seq<Line>, at: Layout)
    requires ScalarAt(lines, 1) == ScalarAt(lines', 1) && ScalarAt(lines, 3) == ScalarAt(lines', 3)
    requires ScalarAt(lines, 5) == ScalarAt(lines', 5)
    requires HeaderLayout(lines) == Ok(at)
    requires Rows(lines, at.R(), at.nodes, IntCell) == Rows(lines', at.R(), at.nodes, IntCell)
    requires Rows(lines, at.A(), at.vehicles, IntCell) == Rows(lines', at.A(), at.vehicles, IntCell)
    requires Rows(lines, at.D(), at.nodes, FloatCell) == Rows(lines', at.D(), at.nodes, FloatCell)
    requires Rows(lines, at.P(), at.pRows, FloatCell) == Rows(lines', at.P(), at.pRows, FloatCell)
    requires ListAt(lines, at.DS(), IntCell) == ListAt(lines', at.DS(), IntCell)
    requires ListAt(lines, at.X(), IntCell) == ListAt(lines', at.X(), IntCell)
    requires ListAt(lines, at.Y(), IntCell) == ListAt(lines', at.Y(), IntCell)
    requires ListAt(lines, at.Mind(), IntCell) == ListAt(lines', at.Mind(), IntCell)
    requires ListAt(lines, at.Maxd(), IntCell) == ListAt(lines', at.Maxd(), IntCell)
    requires ListAt(lines, at.E(), IntCell) == ListAt(lines', at.E(), IntCell)
    requires ListAt(lines, at.L(), IntCell) == ListAt(lines', at.L(), IntCell)
    ensures Parse(lines) == Parse(lines')
  {
  }

  /** The loader reads only the data lines: two files that agree on the header
      and on every data line of the layout it announces load alike, whatever
      their label lines and whatever follows the last data line. */
  lemma ParseReadsOnlyData(lines: seq<Line>, lines': seq<Line>)
    requires SameLine(lines, lines', 1) && SameLine(lines, lines', 3) && SameLine(lines, lines', 5)
    requires HeaderLayout(lines).Ok? ==>
      forall i :: HeaderLayout(lines).value.IsData(i) ==> SameLine(lines, lines', i)
    ensures Parse(lines) == Parse(lines')
  {
    if HeaderLayout(lines).Ok? {
      var at := HeaderLayout(lines).value;
      assert HeaderLayout(lines') == HeaderLayout(lines);
      SectionsFrame(lines, lines', at);
      ParseOfEqualSections(lines, lines', at);
    }
  }

  /** Every section of a layout depends only on that layout's data lines. */
  lemma SectionsFrame(lines: seq<Line>, lines': seq<Line>, at: Layout)
    requires forall i :: at.IsData(i) ==> SameLine(lines, lines', i)
    ensures Rows(lines, at.R(), at.nodes, IntCell) == Rows(lines', at.R(), at.nodes, IntCell)
    ensures Rows(lines, at.A(), at.vehicles, IntCell) == Rows(lines', at.A(), at.vehicles, IntCell)
    ensures Rows(lines, at.D(), at.nodes, FloatCell) == Rows(lines', at.D(), at.nodes, FloatCell)
    ensures Rows(lines, at.P(), at.pRows, FloatCell) == Rows(lines', at.P(), at.pRows, FloatCell)
    ensures ListAt(lines, at.DS(), IntCell) == ListAt(lines', at.DS(), IntCell)
    ensures ListAt(lines, at.X(), IntCell) == ListAt(lines', at.X(), IntCell)
    ensures ListAt(lines, at.Y(), IntCell) == ListAt(lines', at.Y(), IntCell)
    ensures ListAt(lines, at.Mind(), IntCell) == ListAt(lines', at.Mind(), IntCell)
    ensures ListAt(lines, at.Maxd(), IntCell) == ListAt(lines', at.Maxd(), IntCell)
    ensures ListAt(lines, at.E(), IntCell) == ListAt(lines', at.E(), IntCell)
    ensures ListAt(lines, at.L(), IntCell) == ListAt(lines', at.L(), IntCell)
  {
    RowsFrame(lines, lines', at.R(), at.nodes, IntCell);
    RowsFrame(lines, lines', at.A(), at.vehicles, IntCell);
    RowsFrame(lines, lines', at.D(), at.nodes, FloatCell);
    RowsFrame(lines, lines', at.P(), at.pRows, FloatCell);
    assert at.IsData(at.DS()) && at.IsData(at.X()) && at.IsData(at.Y());
    assert at.IsData(at.Mind()) && at.IsData(at.Maxd()) && at.IsData(at.E()) && at.IsData(at.L());
  }

  /** Lines after the last one the loader reads do not change what it loads. */
  lemma TrailingLinesIgnored(lines: seq<Line>, extra: seq<Line>)
    requires HeaderLayout(lines).Ok? && HeaderLayout(lines).value.End() <= |lines|
    ensures Parse(lines + extra) == Parse(lines)
  {
    var at := HeaderLayout(lines).value;
    forall i | at.IsData(i) ensures SameLine(lines, lines + extra, i) {
    }
    ParseReadsOnlyData(lines, lines + extra);
  }

  /** Replacing a line that is not a data line (a label line, or a line past
      the last one read) does not change what the loader loads. */
  lemma NonDataLineIgnored(lines: seq<Line>, k: nat, text: Line)
    requires k < |lines| && HeaderLayout(lines).Ok? && !HeaderLayout(lines).value.IsData(k)
    ensures Parse(lines[k := text]) == Parse(lines)
  {
    var at := HeaderLayout(lines).value;
    assert at.IsData(1) && at.IsData(3) && at.IsData(5);
    forall i | at.IsData(i) ensures SameLine(lines, lines[k := text], i) {
    }
    ParseReadsOnlyData(lines, lines[k := text]);
  }

  /** A serialised well-shaped instance still loads with extra lines appended. */
  lemma RoundTripWithTrailingLines(inst: Instance, extra: seq<Line>)
    requires WellShaped(inst)
    ensures Parse(Serialise(inst) + extra) == Ok(inst)
  {
    SerialisedLayout(Labels, inst);
    RoundTrip(inst);
    TrailingLinesIgnored(Serialise(inst), extra);
  }

  /** With no nodes, __str__ still writes one empty line for the r section. The
      loader reads no r rows, takes that empty line as the DS label, and then
      tries to read the label line "DS" as the DS list, which fails. */
  lemma EmptyNodeSectionShiftsLabels(inst: Instance)
    requires inst.nbNodes == 0 && inst.r == []
    ensures Parse(Serialise(inst)) == Err(8)
  {
    var lines := Serialise(inst);
    NodelessLines(inst);
    assert ScalarAt(lines, 1) == Ok(0) && ScalarAt(lines, 3) == Ok(inst.nbVehi);
  }

  /** The first lines __str__ writes for an instance without nodes. */
  lemma NodelessLines(inst: Instance)
    requires inst.nbNodes == 0 && inst.r == []
    ensures var lines := Serialise(inst);
      LineAt(lines, 1) == [IntTok(0)] && LineAt(lines, 3) == [IntTok(inst.nbVehi)]
      && LineAt(lines, 5) == [IntTok(inst.nbServi)] && LineAt(lines, 7) == [] && LineAt(lines, 8) == [Word("DS")]
  {
    var lines := Serialise(inst);
    var head := [Labels[0], [IntTok(0)], Labels[1], [IntTok(inst.nbVehi)], Labels[2], [IntTok(inst.nbServi)], Labels[3]];
    var rest := lines[9..];
    assert lines == head + [[], Labels[4]] + rest;
  }

  /** Likewise with no vehicles: the empty a section is one empty line, taken
      as the x label, and the label line "x" fails to read as the x list. */
  lemma EmptyVehicleSectionShiftsLabels(inst: Instance)
    requires inst.nbNodes >= 1 && |inst.r| == inst.nbNodes && inst.nbVehi == 0 && inst.a == []
    ensures Parse(Serialise(inst)) == Err(11 + inst.nbNodes)
  {
    var lines, n := Serialise(inst), inst.nbNodes;
    assert LineAt(lines, 1) == [IntTok(n)] && LineAt(lines, 3) == [IntTok(0)] && LineAt(lines, 5) == [IntTok(inst.nbServi)]
    by { VehiclelessHeader(inst); }
    assert SectionHolds(lines, 7, inst.r, IntEnc) by { VehiclelessNodeRows(inst); }
    assert LineAt(lines, 8 + n) == Encode(inst.DS, IntEnc) && LineAt(lines, 11 + n) == [Word("x")]
    by { VehiclelessLabelShift(inst); }
    VehiclelessParse(lines, n, inst.nbServi, inst.r, inst.DS);
  }

  /** The lines the three lemmas below describe fail to parse at the x line. */
  lemma VehiclelessParse(lines: seq<Line>, n: int, s: int, r: seq<seq<int>>, DS: seq<int>)
    requires n >= 1 && |r| == n
    requires LineAt(lines, 1) == [IntTok(n)] && LineAt(lines, 3) == [IntTok(0)] && LineAt(lines, 5) == [IntTok(s)]
    requires SectionHolds(lines, 7, r, IntEnc) && LineAt(lines, 8 + n) == Encode(DS, IntEnc)
    requires LineAt(lines, 11 + n) == [Word("x")]
    ensures Parse(lines) == Err(11 + n)
  {
    assert ScalarAt(lines, 1) == Ok(n) && ScalarAt(lines, 3) == Ok(0) && ScalarAt(lines, 5) == Ok(s);
    CellsDecode();
    RowsOfEncoded(lines, 7, r, IntEnc, IntCell);
    ListOfEncoded(lines, 8 + n, DS, IntEnc, IntCell);
    XLabelStopsParse(lines, n);
  }

  /** A file whose header has no vehicles and whose r rows and DS list read,
      but whose x line holds the label "x", fails at that line. */
  lemma XLabelStopsParse(lines: seq<Line>, n: int)
    requires n >= 1 && ScalarAt(lines, 1) == Ok(n) && ScalarAt(lines, 3) == Ok(0) && ScalarAt(lines, 5).Ok?
    requires Rows(lines, 7, n, IntCell).Ok? && ListAt(lines, 8 + n, IntCell).Ok?
    requires LineAt(lines, 11 + n) == [Word("x")]
    ensures Parse(lines) == Err(11 + n)
  {
    assert LayoutOf(n, 0) == Layout(n, 0, 0);
    assert Rows(lines, 10 + n, 0, IntCell) == Ok([]);
    assert ListAt(lines, 11 + n, IntCell) == Err(11 + n) by {
      assert ParseList([Word("x")], IntCell) == None;
    }
  }

  /** The header __str__ writes for an instance without vehicles. */
  lemma VehiclelessHeader(inst: Instance)
    requires inst.nbNodes >= 1 && |inst.r| == inst.nbNodes && inst.nbVehi == 0 && inst.a == []
    ensures var lines := Serialise(inst);
      && LineAt(lines, 1) == [IntTok(inst.nbNodes)] && LineAt(lines, 3) == [IntTok(0)]
      && LineAt(lines, 5) == [IntTok(inst.nbServi)]
  {
  }

  /** Without vehicles, the r rows still sit right after the header. */
  lemma VehiclelessNodeRows(inst: Instance)
    requires inst.nbNodes >= 1 && |inst.r| == inst.nbNodes && inst.nbVehi == 0 && inst.a == []
    ensures SectionHolds(Serialise(inst), 7, inst.r, IntEnc)
  {
    var lines := Serialise(inst);
    assert RunAt(lines, 7, Section(EncodeRows(inst.r, IntEnc))) by { SerialisedFrontRuns(Labels, inst); }
    RunHolds(lines, 7, inst.r, IntEnc);
  }

  /** Without vehicles, the empty a section is one empty line and the label
      "x" lands where the loader expects the x list. */
  lemma VehiclelessLabelShift(inst: Instance)
    requires inst.nbNodes >= 1 && |inst.r| == inst.nbNodes && inst.nbVehi == 0 && inst.a == []
    ensures var lines, N := Serialise(inst), inst.nbNodes;
      && LineAt(lines, 8 + N) == Encode(inst.DS, IntEnc)
      && LineAt(lines, 10 + N) == [] && LineAt(lines, 11 + N) == [Word("x")]
  {
  }
}
