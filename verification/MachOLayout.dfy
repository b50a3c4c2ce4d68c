/** The layout of a 64-bit little-endian Mac program, read from its bytes: the walk over the load commands and
    what each command adds. */
module MachOLayout {
  import opened Bytes
  import opened ByteSpan

  const HEADER: nat := 32
  const LC_SEGMENT_64: nat := 0x19
  const LC_CODE_SIGNATURE: nat := 0x1D
  const REFERENCES := {0x0C, 0x8000_0018, 0x8000_001F, 0x20, 0x8000_0023}
  const TEXT: Buffer := [0x5F, 0x5F, 0x54, 0x45, 0x58, 0x54]
  const LINKEDIT: Buffer := [0x5F, 0x5F, 0x4C, 0x49, 0x4E, 0x4B, 0x45, 0x44, 0x49, 0x54]

  datatype Kind = Thin64Little | Thin32Little | Thin64Big | Thin32Big | Fat32 | Fat64 | Unknown {
    predicate Thin() { Thin64Little? || Thin32Little? || Thin64Big? || Thin32Big? }
  }

  /** What the first four bytes, in file order, say a file is. */
  function Classify(s: Buffer): Kind {
    if |s| < 4 then Unknown
    else if B32(s, 0) == 0xCFFA_EDFE then Thin64Little
    else if B32(s, 0) == 0xCEFA_EDFE then Thin32Little
    else if B32(s, 0) == 0xFEED_FACF then Thin64Big
    else if B32(s, 0) == 0xFEED_FACE then Thin32Big
    else if B32(s, 0) == 0xCAFE_BABE then Fat32
    else if B32(s, 0) == 0xCAFE_BABF then Fat64
    else Unknown
  }

  datatype Command = Command(at: nat, cmd: nat, size: nat)
  datatype Segment = Segment(at: nat, name: Buffer, vmaddr: nat, vmsize: nat, fileoff: nat, filesize: nat)
  datatype Signature = Signature(at: nat, dataoff: nat, datasize: nat)

  /** What the load commands say; `problem` when some segment's range is not in the program. */
  datatype Facts = Facts(commands: seq<Command>, text: Option<Segment>, linkedit: Option<Segment>, firstContent: nat,
                         codesig: Option<Signature>, dylibs: seq<Buffer>, problem: bool)

  /** The processor a program is for, as its own header or the row of a universal table says. */
  datatype Cpu = Cpu(cputype: nat, cpusubtype: nat)

  datatype Layout = Layout(size: nat, kind: Kind, cputype: nat, cpusubtype: nat, filetype: nat, ncmds: nat, sizeofcmds: nat,
                           facts: Facts)
  {
    function HeaderEnd(): nat { HEADER + sizeofcmds }

    function HeaderCpu(): Cpu { Cpu(cputype, cpusubtype) }

    /** Room for more load commands. */
    function FreeHeaderSpace(): nat {
      if facts.firstContent > HeaderEnd() then facts.firstContent - HeaderEnd() else 0
    }
  }

  function NoFacts(size: nat): Facts {
    Facts([], None, None, size, None, [], false)
  }

  // ── One command ────────────────────────────────────────────

  function NameOf(c: Buffer): Buffer
    requires |c| >= 72
  {
    c[8..FirstNul(c, 8, 24)]
  }

  function SegmentOf(c: Buffer, at: nat): Segment
    requires |c| >= 72
  {
    Segment(at, NameOf(c), U64(c, 24), U64(c, 32), U64(c, 40), U64(c, 48))
  }

  predicate ZeroFill(flags: nat) {
    flags % 256 in {0x01, 0x0C, 0x12}
  }

  function Lower(a: nat, b: nat): nat {
    if b < a then b else a
  }

  /** The lowest offset so far, with that of section i if it has data. */
  function SectionLow(c: Buffer, i: nat, first: nat): nat
    requires 72 + i * 80 + 80 <= |c|
  {
    var at := 72 + i * 80;
    if U32(c, at + 48) != 0 && !ZeroFill(U32(c, at + 64)) then Lower(first, U32(c, at + 48)) else first
  }

  /** The lowest offset among `first` and those of the first n sections that have data. */
  function SectionsFrom(c: Buffer, n: nat, first: nat): nat
    requires 72 + n * 80 <= |c|
  {
    if n == 0 then first else SectionLow(c, n - 1, SectionsFrom(c, n - 1, first))
  }

  function SegmentFirst(seg: Segment, first: nat): nat {
    if seg.name != TEXT && seg.filesize > 0 && seg.fileoff > 0 then Lower(first, seg.fileoff) else first
  }

  function AddSegment(f: Facts, c: Buffer, at: nat, size: nat): Option<Facts> {
    if |c| < 72 || 72 + U32(c, 64) * 80 > |c| then None
    else
      var seg := SegmentOf(c, at);
      var isText := seg.name == TEXT && f.text.None?;
      Some(f.(firstContent := SectionsFrom(c, U32(c, 64), SegmentFirst(seg, f.firstContent)),
              problem := f.problem || !RangeFits(seg.fileoff, seg.filesize, size),
              text := if isText then Some(seg) else f.text,
              linkedit := if !isText && seg.name == LINKEDIT && f.linkedit.None? then Some(seg) else f.linkedit))
  }

  function AddSignature(f: Facts, c: Buffer, at: nat, size: nat, headerEnd: nat): Option<Facts> {
    if |c| < 16 || f.codesig.Some? then None
    else if !RangeFits(U32(c, 8), U32(c, 12), size) || (U32(c, 12) != 0 && U32(c, 8) < headerEnd) then None
    else Some(f.(codesig := Some(Signature(at, U32(c, 8), U32(c, 12)))))
  }

  function AddReference(f: Facts, c: Buffer): Option<Facts> {
    if |c| < 24 || U32(c, 8) >= |c| then None
    else
      var name := StringAt(c, U32(c, 8), |c|);
      if !name.Text? then None
      else Some(f.(dylibs := if name.value in f.dylibs then f.dylibs else f.dylibs + [name.value]))
  }

  /** The facts with those of one more command, or a rejection. */
  function Add(f: Facts, c: Buffer, at: nat, size: nat, headerEnd: nat): Option<Facts> {
    if |c| < 8 then None else AddSized(f, c, at, size, headerEnd)
  }

  function AddSized(f: Facts, c: Buffer, at: nat, size: nat, headerEnd: nat): Option<Facts>
    requires |c| >= 8
  {
    var g := f.(commands := f.commands + [Command(at, U32(c, 0), |c|)]);
    if U32(c, 0) == LC_SEGMENT_64 then AddSegment(g, c, at, size)
    else if U32(c, 0) == LC_CODE_SIGNATURE then AddSignature(g, c, at, size, headerEnd)
    else if U32(c, 0) in REFERENCES then AddReference(g, c)
    else Some(g)
  }

  // ── All commands ───────────────────────────────────────────

  /** The command at a place of the load command area. */
  function CommandAt(area: Buffer, at: nat): (c: Option<Buffer>)
    ensures c.Some? ==> WellSized(c.value) && HoldsAt(area, at, c.value)
  {
    if !RangeFits(at, 8, |area|) then None
    else
      var size := U32(area, at + 4);
      if size < 8 || size % 4 != 0 || !RangeFits(at, size, |area|) then None else Some(area[at..at + size])
  }

  /** A command says its own size. */
  predicate WellSized(c: Buffer) {
    |c| >= 8 && |c| % 4 == 0 && U32(c, 4) == |c|
  }

  predicate AllWellSized(cs: seq<Buffer>) {
    cs == [] || (AllWellSized(cs[..|cs| - 1]) && WellSized(cs[|cs| - 1]))
  }

  /** The first i commands of the area, one after the other. */
  function Walk(area: Buffer, i: nat): (cs: Option<seq<Buffer>>)
    ensures cs.Some? ==> |cs.value| == i && AllWellSized(cs.value)
  {
    if i == 0 then Some([])
    else
      var cs :- Walk(area, i - 1);
      var c :- CommandAt(area, |Join(cs)|);
      assert (cs + [c])[..|cs|] == cs;
      Some(cs + [c])
  }

  /** Where a command stands in the program. */
  function PlaceOf(cs: seq<Buffer>): nat {
    HEADER + |Join(cs)|
  }

  /** How one command changes what is known, given where it stands. */
  type Reader<!F> = (F, Buffer, nat) -> Option<F>

  function Fold<F>(cs: seq<Buffer>, start: F, read: Reader<F>): Option<F> {
    if cs == [] then Some(start)
    else
      var f :- Fold(cs[..|cs| - 1], start, read);
      read(f, cs[|cs| - 1], PlaceOf(cs[..|cs| - 1]))
  }

  /** The bytes n commands take and what they say. */
  function Commands<F>(area: Buffer, n: nat, start: F, read: Reader<F>): Option<(nat, F)> {
    var cs :- Walk(area, n);
    var f :- Fold(cs, start, read);
    Some((|Join(cs)|, f))
  }

  /** The reader of a program of this size whose commands end here. */
  function ProgramReader(size: nat, headerEnd: nat): Reader<Facts> {
    (f: Facts, c: Buffer, at: nat) => Add(f, c, at, size, headerEnd)
  }

  /** The layout of a program, or a rejection. A program of another kind is recognised and not looked into. */
  function ParseSlice(s: Buffer): Option<Layout> {
    var kind := Classify(s);
    if !kind.Thin() || |s| < 12 then None
    else if kind == Thin32Big || kind == Thin64Big then Some(Layout(|s|, kind, B32(s, 4), B32(s, 8), 0, 0, 0, NoFacts(|s|)))
    else if kind == Thin32Little then Some(Layout(|s|, kind, U32(s, 4), U32(s, 8), 0, 0, 0, NoFacts(|s|)))
    else ParseProgram(s)
  }

  function ParseProgram(s: Buffer): Option<Layout> {
    if |s| < HEADER || !RangeFits(HEADER, U32(s, 20), |s|) then None
    else
      var headerEnd := HEADER + U32(s, 20);
      var read :- Commands(s[HEADER..headerEnd], U32(s, 16), NoFacts(|s|), ProgramReader(|s|, headerEnd));
      if read.0 != U32(s, 20) || read.1.problem then None
      else Some(Layout(|s|, Thin64Little, U32(s, 4), U32(s, 8), U32(s, 12), U32(s, 16), U32(s, 20), read.1))
  }

  // ── The loop ───────────────────────────────────────────────

  lemma {:induction false} WalkStops(area: Buffer, i: nat, n: nat)
    requires i <= n && Walk(area, i).None?
    ensures Walk(area, n).None?
    decreases n
  {
    if i < n { WalkStops(area, i, n - 1); }
  }

  lemma {:induction false} WalkPrefix(area: Buffer, i: nat, n: nat)
    requires i <= n && Walk(area, n).Some?
    ensures Walk(area, i) == Some(Walk(area, n).value[..i])
    decreases n
  {
    if i < n {
      WalkPrefix(area, i, n - 1);
      assert Walk(area, n).value[..n - 1] == Walk(area, n - 1).value;
      assert Walk(area, n).value[..i] == Walk(area, n).value[..n - 1][..i];
    } else {
      assert Walk(area, n).value[..n] == Walk(area, n).value;
    }
  }

  lemma {:induction false} WellSizedPrefix(cs: seq<Buffer>, i: nat)
    requires AllWellSized(cs) && i <= |cs|
    ensures AllWellSized(cs[..i]) && (i < |cs| ==> WellSized(cs[i]))
    decreases |cs|
  {
    if i < |cs| {
      WellSizedPrefix(cs[..|cs| - 1], i);
      assert cs[..|cs| - 1][..i] == cs[..i];
    } else {
      assert cs[..i] == cs;
    }
  }

  lemma {:induction false} FoldStops<F>(cs: seq<Buffer>, i: nat, start: F, read: Reader<F>)
    requires i <= |cs| && Fold(cs[..i], start, read).None?
    ensures Fold(cs, start, read).None?
    decreases |cs|
  {
    if i == |cs| {
      assert cs[..i] == cs;
    } else {
      assert cs[..|cs| - 1][..i] == cs[..i];
      FoldStops(cs[..|cs| - 1], i, start, read);
    }
  }

  /** A rejected command rejects the program. */
  lemma {:induction false} CommandsFail<F>(area: Buffer, i: nat, n: nat, start: F, read: Reader<F>)
    requires i <= n && Commands(area, i, start, read).None?
    ensures Commands(area, n, start, read).None?
  {
    var cs := Walk(area, n);
    if Walk(area, i).None? {
      WalkStops(area, i, n);
    } else if cs.Some? {
      WalkPrefix(area, i, n);
      FoldStops(cs.value, i, start, read);
    }
  }

  /** One command more. */
  lemma {:induction false} CommandsNext<F>(area: Buffer, i: nat, start: F, read: Reader<F>)
    requires Commands(area, i, start, read).Some?
    ensures var (cursor, f) := Commands(area, i, start, read).value;
      var c := CommandAt(area, cursor);
      Commands(area, i + 1, start, read) ==
        if c.None? then None
        else
          var g := read(f, c.value, HEADER + cursor);
          if g.None? then None else Some((cursor + |c.value|, g.value))
  {
    var cs := Walk(area, i).value;
    var c := CommandAt(area, |Join(cs)|);
    if c.Some? {
      assert (cs + [c.value])[..|cs|] == cs;
      JoinSnoc(cs, c.value);
    }
  }

  method ReadSections(c: Buffer, n: nat, first: nat) returns (lowest: nat)
    requires 72 + n * 80 <= |c|
    ensures lowest == SectionsFrom(c, n, first)
  {
    lowest := first;
    var i := 0;
    while i < n
      invariant i <= n && lowest == SectionsFrom(c, i, first)
    {
      lowest := SectionLow(c, i, lowest);
      i := i + 1;
    }
  }

  method ReadCommand(f: Facts, c: Buffer, at: nat, size: nat, headerEnd: nat) returns (r: Option<Facts>)
    requires WellSized(c)
    ensures r == Add(f, c, at, size, headerEnd)
  {
    var g := f.(commands := f.commands + [Command(at, U32(c, 0), |c|)]);
    if U32(c, 0) == LC_SEGMENT_64 {
      if |c| < 72 { return None; }
      var seg := SegmentOf(c, at);
      var problem := g.problem || !RangeFits(seg.fileoff, seg.filesize, size);
      if 72 + U32(c, 64) * 80 > |c| { return None; }
      var first := SegmentFirst(seg, g.firstContent);
      first := ReadSections(c, U32(c, 64), first);
      g := g.(problem := problem, firstContent := first);
      if seg.name == TEXT && g.text.None? {
        g := g.(text := Some(seg));
      } else if seg.name == LINKEDIT && g.linkedit.None? {
        g := g.(linkedit := Some(seg));
      }
      return Some(g);
    }
    if U32(c, 0) == LC_CODE_SIGNATURE { return AddSignature(g, c, at, size, headerEnd); }
    if U32(c, 0) in REFERENCES { return AddReference(g, c); }
    r := Some(g);
  }

  /** One turn of the walk. */
  method ReadNext(area: Buffer, ghost i: nat, size: nat, headerEnd: nat, cursor: nat, facts: Facts) returns (r: Option<(nat, Facts)>)
    requires Commands(area, i, NoFacts(size), ProgramReader(size, headerEnd)) == Some((cursor, facts))
    ensures r == Commands(area, i + 1, NoFacts(size), ProgramReader(size, headerEnd))
  {
    hide AddSized;
    CommandsNext(area, i, NoFacts(size), ProgramReader(size, headerEnd));
    var c := CommandAt(area, cursor);
    if c.None? { return None; }
    var next := ReadCommand(facts, c.value, HEADER + cursor, size, headerEnd);
    if next.None? { return None; }
    r := Some((cursor + |c.value|, next.value));
  }

  /** The walk as the code makes it: a cursor over the load command area, one command at a time. */
  method ReadCommands(area: Buffer, n: nat, size: nat, headerEnd: nat) returns (r: Option<(nat, Facts)>)
    ensures r == Commands(area, n, NoFacts(size), ProgramReader(size, headerEnd))
  {
    var i := 0;
    r := Some((0, NoFacts(size)));
    while i < n
      invariant i <= n && r.Some? && r == Commands(area, i, NoFacts(size), ProgramReader(size, headerEnd))
    {
      r := ReadNext(area, i, size, headerEnd, r.value.0, r.value.1);
      i := i + 1;
      if r.None? {
        CommandsFail(area, i, n, NoFacts(size), ProgramReader(size, headerEnd));
        return;
      }
    }
  }

  method Parse(s: Buffer) returns (r: Option<Layout>)
    requires Classify(s) == Thin64Little
    ensures r == ParseProgram(s)
  {
    hide AddSized;
    if |s| < HEADER || !RangeFits(HEADER, U32(s, 20), |s|) { return None; }
    var headerEnd := HEADER + U32(s, 20);
    var read := ReadCommands(s[HEADER..headerEnd], U32(s, 16), |s|, headerEnd);
    if read.None? || read.value.0 != U32(s, 20) || read.value.1.problem { return None; }
    r := Some(Layout(|s|, Thin64Little, U32(s, 4), U32(s, 8), U32(s, 12), U32(s, 16), U32(s, 20), read.value.1));
  }

  // ── A program and its pieces ───────────────────────────────

  /** A program taken apart: its commands, and what the header says of them. */
  ghost predicate Apart(s: Buffer, cs: seq<Buffer>) {
    && AllWellSized(cs) && |s| >= HEADER && Classify(s) == Thin64Little
    && U32(s, 16) == |cs| && U32(s, 20) == |Join(cs)|
    && HoldsAt(s, HEADER, Join(cs))
  }

  lemma {:induction false} WalkHolds(area: Buffer, i: nat)
    requires Walk(area, i).Some?
    ensures HoldsAt(area, 0, Join(Walk(area, i).value))
  {
    if i > 0 {
      WalkHolds(area, i - 1);
      var cs := Walk(area, i - 1).value;
      var c := CommandAt(area, |Join(cs)|).value;
      JoinSnoc(cs, c);
      assert area[..|Join(cs)|] + area[|Join(cs)|..|Join(cs)| + |c|] == area[..|Join(cs)| + |c|];
    }
  }

  lemma {:induction false} WalkOfJoin(area: Buffer, cs: seq<Buffer>, i: nat)
    requires AllWellSized(cs) && area == Join(cs) && i <= |cs|
    ensures Walk(area, i) == Some(cs[..i])
  {
    hide U32, Join, AllWellSized;
    if i > 0 {
      WalkOfJoin(area, cs, i - 1);
      JoinSlice(cs, i - 1);
      WellSizedPrefix(cs, i - 1);
      var at, c := |Join(cs[..i - 1])|, cs[i - 1];
      assert area[at..at + |c|] == c;
      FieldInside(area, at, c, 4);
      assert CommandAt(area, at) == Some(c);
      assert cs[..i] == cs[..i - 1] + [c];
    }
  }

  /** A field of a piece, read where the piece stands. */
  lemma {:induction false} FieldInside(s: Buffer, at: nat, c: Buffer, k: nat)
    requires HoldsAt(s, at, c) && k + 4 <= |c|
    ensures U32(s, at + k) == U32(c, k)
  {
    assert s[at..at + |c|][k] == s[at + k] && s[at..at + |c|][k + 1] == s[at + k + 1];
    assert s[at..at + |c|][k + 2] == s[at + k + 2] && s[at..at + |c|][k + 3] == s[at + k + 3];
  }

  lemma {:induction false} CommandsApart<F>(area: Buffer, n: nat, start: F, read: Reader<F>) returns (cs: seq<Buffer>)
    requires Commands(area, n, start, read).Some?
    ensures |cs| == n && AllWellSized(cs) && HoldsAt(area, 0, Join(cs))
    ensures Commands(area, n, start, read).value.0 == |Join(cs)|
    ensures Fold(cs, start, read) == Some(Commands(area, n, start, read).value.1)
  {
    cs := Walk(area, n).value;
    WalkHolds(area, n);
  }

  lemma {:induction false} CommandsTogether<F>(cs: seq<Buffer>, start: F, read: Reader<F>)
    requires AllWellSized(cs) && Fold(cs, start, read).Some?
    ensures Commands(Join(cs), |cs|, start, read) == Some((|Join(cs)|, Fold(cs, start, read).value))
  {
    WalkOfJoin(Join(cs), cs, |cs|);
    assert cs[..|cs|] == cs;
  }

  function FactsOf(cs: seq<Buffer>, size: nat): Option<Facts> {
    Fold(cs, NoFacts(size), ProgramReader(size, PlaceOf(cs)))
  }

  /** A program is accepted exactly when it comes apart into commands that are all accepted. */
  lemma {:induction false} ParsedApart(s: Buffer) returns (cs: seq<Buffer>)
    requires ParseSlice(s).Some? && Classify(s) == Thin64Little
    ensures Apart(s, cs)
    ensures var l := ParseSlice(s).value;
      l == Layout(|s|, Thin64Little, U32(s, 4), U32(s, 8), U32(s, 12), |cs|, |Join(cs)|, l.facts)
      && FactsOf(cs, |s|) == Some(l.facts) && !l.facts.problem
  {
    hide AddSized;
    var area := s[HEADER..HEADER + U32(s, 20)];
    cs := CommandsApart(area, U32(s, 16), NoFacts(|s|), ProgramReader(|s|, HEADER + U32(s, 20)));
    assert area[0..|area|] == area;
  }

  lemma {:induction false} ApartParses(s: Buffer, cs: seq<Buffer>)
    requires Apart(s, cs) && FactsOf(cs, |s|).Some? && !FactsOf(cs, |s|).value.problem
    ensures ParseSlice(s) == Some(Layout(|s|, Thin64Little, U32(s, 4), U32(s, 8), U32(s, 12), |cs|, |Join(cs)|, FactsOf(cs, |s|).value))
  {
    hide Add, U32, Walk, Commands;
    CommandsTogether(cs, NoFacts(|s|), ProgramReader(|s|, PlaceOf(cs)));
  }
}
