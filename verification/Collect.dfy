/** The host's table builder: from translation rules to the four row lists. */
module Collect {
  import opened Common
  import opened Bytes
  import opened Tables

  const UVM_SCAN_MAX: nat := 2047
  const UVM_INITIALIZE: u32 := 0x3000_0001
  const UVM_DEINITIALIZE: u32 := 0x3000_0002
  const FRONTEND_SCAN_MAX: nat := 0xff
  const CLASS_SCAN_MAX: nat := 0xffff

  const CTL: u32 := 0
  const GPU: u32 := 1
  const UVM: u32 := 2
  const UVM_TOOLS: u32 := 3

  const ESC_ALLOC_MEMORY: u32 := 39
  const ESC_FREE: u32 := 41
  const ESC_CONTROL: u32 := 42
  const ESC_ALLOC: u32 := 43
  const ESC_MAP_MEMORY: u32 := 78
  const ESC_GET_EVENT_DATA: u32 := 82
  const ESC_REGISTER_FD: u32 := 201
  const ESC_ALLOC_OS_EVENT: u32 := 206
  const ESC_FREE_OS_EVENT: u32 := 207
  const ESC_XFER: u32 := 211

  const EMB_NONE: u32 := 0
  const EMB_LEN_FIELD: u32 := 1
  const EMB_LEN_CLASS: u32 := 2
  const EMB_LEN_FIXED: u32 := 3
  const NLEN_FIXED: u32 := 0
  const NLEN_FIELD: u32 := 1
  const SIZE_FROM_IOC: u32 := 0xffff_ffff
  const F_XFER: u32 := 1
  const F_OSDESC: u32 := 2
  const F_FREE: u32 := 4
  const KF_UNVERIFIED: u32 := 1

  datatype LenSource = Fixed(n: u32) | Field(off: u32, elem: u32)

  datatype NestedPtr = NestedPtr(ptrOff: u32, len: LenSource)

  datatype Envelope = FixedSize(n: u32) | ArrayOf(n: u32) | Allocation

  /** The translation rules, as functions of the number they are asked about. */
  datatype Rules = Rules(
    uvmSize: u32 -> Option<u32>,
    envelope: u32 -> Option<Envelope>,
    allocSize: u32 -> Option<u32>,
    allocFd: u32 -> Option<u32>,
    allocFdGuard: u32 -> Option<(u32, u32)>,
    allocVerified: u32 -> bool,
    nestedCmds: seq<u32>,
    blocked: seq<u32>,
    fdCmds: seq<u32>,
    nested: u32 -> seq<NestedPtr>,
    fdOffset: u32 -> Option<u32>)

  // -------------------------------------------------------------- ioctl rows

  function FdFieldOffset(dev: u32, nr: u32): Option<u32> {
    if dev == UVM || dev == UVM_TOOLS then
      if nr == 75 then Some(0)
      else if nr == 25 || nr == 27 then Some(16)
      else if nr == 37 then Some(24)
      else if nr == 33 then Some(9248)
      else None
    else if nr == ESC_REGISTER_FD then Some(0)
    else if nr == ESC_ALLOC_OS_EVENT || nr == ESC_FREE_OS_EVENT then Some(8)
    else if nr == ESC_MAP_MEMORY || nr == ESC_ALLOC_MEMORY then Some(48)
    else None
  }

  function OrNone(o: Option<u32>): u32 { if o.Some? then o.value else NONE }

  function Desc(dev: u32, nr: u32): IoctlDesc {
    IoctlDesc(dev, nr, SIZE_FROM_IOC, NONE, NONE, EMB_NONE, NONE, NONE, NONE, NONE, NONE, 0)
  }

  /** The translation exceptions, laid over a row. */
  function Special(nr: u32, d: IoctlDesc): Option<IoctlDesc> {
    if nr == ESC_CONTROL then Some(d.(embPtrOff := 16, embLenKind := EMB_LEN_FIELD, embLenOff := 24, cmdOff := 8))
    else if nr == ESC_ALLOC then
      Some(d.(embPtrOff := 16, embLenKind := EMB_LEN_CLASS, embLenOff := 12, rightsOff := 24, rightsIfSize := 48))
    else if nr == ESC_FREE then Some(d.(handleOff := 8, flags := F_FREE))
    else if nr == ESC_ALLOC_MEMORY then Some(d.(embLenOff := 12, handleOff := 8, flags := F_OSDESC))
    else if nr == ESC_XFER then Some(d.(flags := F_XFER))
    else if nr == ESC_GET_EVENT_DATA then Some(d.(embPtrOff := 0, embLenKind := EMB_LEN_FIXED, embLenOff := 16))
    else None
  }

  function UvmRow(r: Rules, dev: u32, nr: u32): Option<IoctlDesc> {
    match r.uvmSize(nr)
    case None => None
    case Some(size) => Some(Desc(dev, nr).(size := size, fdOff := OrNone(FdFieldOffset(dev, nr))))
  }

  function FrontendRow(r: Rules, dev: u32, nr: u32): Option<IoctlDesc> {
    var d := Desc(dev, nr).(fdOff := OrNone(FdFieldOffset(dev, nr)));
    if Special(nr, d).Some? then Special(nr, d) else if r.envelope(nr).Some? then Some(d) else None
  }

  predicate UvmScanned(nr: u32) { nr <= UVM_SCAN_MAX || nr == UVM_INITIALIZE || nr == UVM_DEINITIALIZE }

  /** The row the tables hold for a device and request number, if any. */
  function RowFor(r: Rules, dev: u32, nr: u32): Option<IoctlDesc> {
    if dev == UVM || dev == UVM_TOOLS then if UvmScanned(nr) then UvmRow(r, dev, nr) else None
    else if dev == CTL || dev == GPU then if nr <= FRONTEND_SCAN_MAX then FrontendRow(r, dev, nr) else None
    else None
  }

  lemma {:induction false} IoctlForPush(ds: seq<IoctlDesc>, d: IoctlDesc, dev: u32, nr: u32)
    ensures IoctlFor(ds + [d], dev, nr) ==
      if IoctlFor(ds, dev, nr).Some? then IoctlFor(ds, dev, nr)
      else if d.dev == dev && d.nr == nr then Some(d) else None
    decreases |ds|
  {
    if ds == [] {
      assert [d][1..] == [];
    } else {
      assert (ds + [d])[1..] == ds[1..] + [d];
      IoctlForPush(ds[1..], d, dev, nr);
    }
  }

  /** `after` answers like `before`, and for (dev, nr) with `row`. */
  ghost predicate Pushed(before: seq<IoctlDesc>, after: seq<IoctlDesc>, dev: u32, nr: u32, row: Option<IoctlDesc>) {
    forall d: u32, n: u32 :: IoctlFor(after, d, n) == if d == dev && n == nr then row else IoctlFor(before, d, n)
  }

  /** One turn of a scan: push the row if there is one. */
  method Push(ds: seq<IoctlDesc>, dev: u32, nr: u32, row: Option<IoctlDesc>) returns (r: seq<IoctlDesc>)
    requires IoctlFor(ds, dev, nr).None?
    requires row.Some? ==> row.value.dev == dev && row.value.nr == nr
    ensures Pushed(ds, r, dev, nr, row)
  {
    r := ds;
    if row.Some? {
      r := ds + [row.value];
      forall d: u32, n: u32 ensures IoctlFor(r, d, n) == if d == dev && n == nr then row else IoctlFor(ds, d, n) {
        IoctlForPush(ds, row.value, d, n);
      }
    }
  }

  /** `ds` answers with the table's row where `seen`, and with nothing elsewhere. */
  ghost predicate Answers(r: Rules, ds: seq<IoctlDesc>, seen: (u32, u32) -> bool) {
    forall d: u32, n: u32 :: IoctlFor(ds, d, n) == if seen(d, n) then RowFor(r, d, n) else None
  }

  ghost function UpTo(devs: seq<u32>, dev: u32, k: nat, special: nat): (u32, u32) -> bool {
    (d, n) => d in devs || (d == dev && (n < k || (special >= 1 && n == UVM_INITIALIZE) || (special >= 2 && n == UVM_DEINITIALIZE)))
  }

  lemma AnswersPush(r: Rules, ds: seq<IoctlDesc>, es: seq<IoctlDesc>, dev: u32, nr: u32, seen: (u32, u32) -> bool, seen': (u32, u32) -> bool)
    requires Answers(r, ds, seen) && Pushed(ds, es, dev, nr, RowFor(r, dev, nr))
    requires forall d: u32, n: u32 :: seen'(d, n) <==> seen(d, n) || (d == dev && n == nr)
    ensures Answers(r, es, seen')
  {
  }

  lemma AnswersSame(r: Rules, ds: seq<IoctlDesc>, seen: (u32, u32) -> bool, seen': (u32, u32) -> bool)
    requires Answers(r, ds, seen)
    requires forall d: u32, n: u32 :: seen'(d, n) == seen(d, n) || (RowFor(r, d, n).None? && IoctlFor(ds, d, n).None?)
    ensures Answers(r, ds, seen')
  {
  }

  method ScanUvm(r: Rules, ds: seq<IoctlDesc>, dev: u32, ghost devs: seq<u32>) returns (es: seq<IoctlDesc>)
    requires (dev == UVM || dev == UVM_TOOLS) && dev !in devs
    requires Answers(r, ds, UpTo(devs, dev, 0, 0))
    ensures Answers(r, es, UpTo(devs + [dev], dev, 0, 0))
  {
    es := ds;
    for nr := 0 to UVM_SCAN_MAX + 1
      invariant Answers(r, es, UpTo(devs, dev, nr, 0))
    {
      ghost var was := es;
      assert !UpTo(devs, dev, nr, 0)(dev, nr);
      es := Push(es, dev, nr, UvmRow(r, dev, nr));
      AnswersPush(r, was, es, dev, nr, UpTo(devs, dev, nr, 0), UpTo(devs, dev, nr + 1, 0));
    }
    ghost var k := UVM_SCAN_MAX + 1;
    ghost var was := es;
    assert !UpTo(devs, dev, k, 0)(dev, UVM_INITIALIZE);
    es := Push(es, dev, UVM_INITIALIZE, UvmRow(r, dev, UVM_INITIALIZE));
    AnswersPush(r, was, es, dev, UVM_INITIALIZE, UpTo(devs, dev, k, 0), UpTo(devs, dev, k, 1));
    was := es;
    assert !UpTo(devs, dev, k, 1)(dev, UVM_DEINITIALIZE);
    es := Push(es, dev, UVM_DEINITIALIZE, UvmRow(r, dev, UVM_DEINITIALIZE));
    AnswersPush(r, was, es, dev, UVM_DEINITIALIZE, UpTo(devs, dev, k, 1), UpTo(devs, dev, k, 2));
    AnswersSame(r, es, UpTo(devs, dev, k, 2), UpTo(devs + [dev], dev, 0, 0));
  }

  method ScanFrontend(r: Rules, ds: seq<IoctlDesc>, dev: u32, ghost devs: seq<u32>) returns (es: seq<IoctlDesc>)
    requires (dev == CTL || dev == GPU) && dev !in devs
    requires Answers(r, ds, UpTo(devs, dev, 0, 0))
    ensures Answers(r, es, UpTo(devs + [dev], dev, 0, 0))
  {
    es := ds;
    for nr := 0 to FRONTEND_SCAN_MAX + 1
      invariant Answers(r, es, UpTo(devs, dev, nr, 0))
    {
      ghost var was := es;
      assert !UpTo(devs, dev, nr, 0)(dev, nr);
      es := Push(es, dev, nr, FrontendRow(r, dev, nr));
      AnswersPush(r, was, es, dev, nr, UpTo(devs, dev, nr, 0), UpTo(devs, dev, nr + 1, 0));
    }
    AnswersSame(r, es, UpTo(devs, dev, FRONTEND_SCAN_MAX + 1, 0), UpTo(devs + [dev], dev, 0, 0));
  }

  /** A lookup in the collected rows answers with the rule for that request, for every request. */
  method CollectIoctls(r: Rules) returns (ds: seq<IoctlDesc>)
    ensures forall dev: u32, nr: u32 :: IoctlFor(ds, dev, nr) == RowFor(r, dev, nr)
  {
    ds := [];
    AnswersSame(r, ds, NothingSeen(), UpTo([], UVM, 0, 0));
    ds := ScanUvm(r, ds, UVM, []);
    AnswersSame(r, ds, UpTo([] + [UVM], UVM, 0, 0), UpTo([UVM], UVM_TOOLS, 0, 0));
    ds := ScanUvm(r, ds, UVM_TOOLS, [UVM]);
    AnswersSame(r, ds, UpTo([UVM] + [UVM_TOOLS], UVM_TOOLS, 0, 0), UpTo([UVM, UVM_TOOLS], CTL, 0, 0));
    ds := ScanFrontend(r, ds, CTL, [UVM, UVM_TOOLS]);
    AnswersSame(r, ds, UpTo([UVM, UVM_TOOLS] + [CTL], CTL, 0, 0), UpTo([UVM, UVM_TOOLS, CTL], GPU, 0, 0));
    ds := ScanFrontend(r, ds, GPU, [UVM, UVM_TOOLS, CTL]);
  }

  ghost function NothingSeen(): (u32, u32) -> bool { (d, n) => false }

  // -------------------------------------------------------------- class rows

  function ClassRow(r: Rules, hclass: u32, size: u32): ClassDesc {
    var g := r.allocFdGuard(hclass);
    ClassDesc(hclass, size, OrNone(r.allocFd(hclass)), if r.allocVerified(hclass) then 0 else KF_UNVERIFIED,
              if g.Some? then g.value.0 else NONE, if g.Some? then g.value.1 else 0)
  }

  function ClassRowFor(r: Rules, hclass: u32): Option<ClassDesc> {
    match r.allocSize(hclass)
    case None => None
    case Some(size) => Some(ClassRow(r, hclass, size))
  }

  lemma {:induction false} ClassForPush(cs: seq<ClassDesc>, c: ClassDesc, hclass: u32)
    ensures ClassFor(cs + [c], hclass) ==
      if ClassFor(cs, hclass).Some? then ClassFor(cs, hclass) else if c.hclass == hclass then Some(c) else None
    decreases |cs|
  {
    if cs == [] {
      assert [c][1..] == [];
    } else {
      assert (cs + [c])[1..] == cs[1..] + [c];
      ClassForPush(cs[1..], c, hclass);
    }
  }

  /** Classes are 16 bit: the scan is exhaustive for them and silent about anything above. */
  method CollectClasses(r: Rules) returns (cs: seq<ClassDesc>)
    ensures forall c: u32 :: ClassFor(cs, c) == if c <= CLASS_SCAN_MAX then ClassRowFor(r, c) else None
  {
    cs := [];
    for hclass := 0 to CLASS_SCAN_MAX + 1
      invariant forall c: u32 :: ClassFor(cs, c) == if c < hclass then ClassRowFor(r, c) else None
    {
      var size := r.allocSize(hclass);
      if size.Some? {
        ghost var was := cs;
        var row := ClassRow(r, hclass, size.value);
        cs := cs + [row];
        forall c: u32 ensures ClassFor(cs, c) == if c < hclass + 1 then ClassRowFor(r, c) else None {
          ClassForPush(was, row, c);
        }
      }
    }
  }

  // ------------------------------------------------------------- control rows

  function NestedRowOf(p: NestedPtr): NestedRow {
    match p.len
    case Fixed(n) => NestedRow(p.ptrOff, NLEN_FIXED, n, 1)
    case Field(off, elem) => NestedRow(p.ptrOff, NLEN_FIELD, off, elem)
  }

  function NestedRowsOf(ps: seq<NestedPtr>): (rows: seq<NestedRow>)
    ensures |rows| == |ps| && forall i :: 0 <= i < |ps| ==> rows[i] == NestedRowOf(ps[i])
  {
    seq(|ps|, i requires 0 <= i < |ps| => NestedRowOf(ps[i]))
  }

  /** All nested rows of a list of commands, in order. */
  function AllNested(r: Rules, cmds: seq<u32>): seq<NestedRow> {
    if cmds == [] then []
    else AllNested(r, cmds[..|cmds| - 1]) + NestedRowsOf(r.nested(cmds[|cmds| - 1]))
  }

  lemma AllNestedNext(r: Rules, cmds: seq<u32>, k: nat)
    requires k < |cmds|
    ensures AllNested(r, cmds[..k + 1]) == AllNested(r, cmds[..k]) + NestedRowsOf(r.nested(cmds[k]))
  {
    assert cmds[..k + 1][..k] == cmds[..k];
  }

  function Flags(block: bool, fd: bool): u32 { (if block then 1 else 0) + (if fd then 2 else 0) }

  predicate HasBlock(flags: u32) { flags % 2 == 1 }

  predicate HasFd(flags: u32) { flags / 2 % 2 == 1 }

  /** The row of a command with its nested range, complete with the union of its flags. */
  function CtrlRow(r: Rules, cmd: u32, first: u32, count: u32, fd: bool): CtrlDesc {
    CtrlDesc(cmd, first, count, Flags(cmd in r.blocked, fd), if fd then OrNone(r.fdOffset(cmd)) else NONE)
  }

  predicate HasRow(cs: seq<CtrlDesc>, cmd: u32) {
    exists i :: 0 <= i < |cs| && cs[i].cmd == cmd
  }

  /** What the builder asserts of its rules, and the widths it relies on. */
  ghost predicate WellFormed(r: Rules) {
    && (forall cmd :: cmd in r.nestedCmds ==> r.nested(cmd) != [])
    && (forall cmd :: r.fdOffset(cmd).Some? <==> cmd in r.fdCmds)
    && |AllNested(r, r.nestedCmds)| < U32
  }

  method IndexOf(cs: seq<CtrlDesc>, cmd: u32) returns (i: nat)
    ensures i <= |cs| && (i < |cs| <==> HasRow(cs, cmd))
    ensures i < |cs| ==> cs[i].cmd == cmd
  {
    i := 0;
    while i < |cs| && cs[i].cmd != cmd
      invariant i <= |cs| && forall j :: 0 <= j < i ==> cs[j].cmd != cmd
    {
      i := i + 1;
    }
  }

  /** The rows of the nested commands lead, each naming its own stretch of the nested table. */
  predicate Leads(r: Rules, cs: seq<CtrlDesc>, k: nat)
    requires k <= |r.nestedCmds|
  {
    k <= |cs| && forall i :: 0 <= i < k ==>
      && cs[i].cmd == r.nestedCmds[i]
      && cs[i].first == |AllNested(r, r.nestedCmds[..i])|
      && cs[i].count == |r.nested(r.nestedCmds[i])|
  }

  /** Every later row is new and names nothing. */
  predicate Extras(cs: seq<CtrlDesc>, k: nat) {
    forall i :: k <= i < |cs| ==> cs[i].first == 0 && cs[i].count == 0 && forall j :: 0 <= j < i ==> cs[j].cmd != cs[i].cmd
  }

  predicate RowFlagged(r: Rules, c: CtrlDesc, fd: bool) {
    c == CtrlRow(r, c.cmd, c.first, c.count, r.fdOffset(c.cmd).Some? && fd)
  }

  /** Row `i` carries its flags; a row behind `k` has its fd only once its command is in `done`. */
  predicate Flagged(r: Rules, cs: seq<CtrlDesc>, k: nat, done: seq<u32>) {
    forall i :: 0 <= i < |cs| ==> RowFlagged(r, cs[i], i < k || cs[i].cmd in done)
  }

  predicate Listed(r: Rules, cmd: u32) { cmd in r.nestedCmds || cmd in r.blocked || cmd in r.fdCmds }

  /** Every row's command is in one of the lists. */
  predicate Known(r: Rules, cs: seq<CtrlDesc>) {
    forall i :: 0 <= i < |cs| ==> Listed(r, cs[i].cmd)
  }

  lemma {:induction false} AllNestedGrows(r: Rules, cmds: seq<u32>, k: nat, n: nat)
    requires k <= n <= |cmds|
    ensures |AllNested(r, cmds[..k])| <= |AllNested(r, cmds[..n])|
    ensures AllNested(r, cmds[..n])[..|AllNested(r, cmds[..k])|] == AllNested(r, cmds[..k])
    decreases n
  {
    if k < n {
      AllNestedGrows(r, cmds, k, n - 1);
      AllNestedNext(r, cmds, n - 1);
    }
  }

  /** What holds of the rows between two pushes. */
  predicate Sound(r: Rules, cs: seq<CtrlDesc>, done: seq<u32>) {
    && Leads(r, cs, |r.nestedCmds|) && Extras(cs, |r.nestedCmds|)
    && Flagged(r, cs, |r.nestedCmds|, done) && Known(r, cs)
  }

  lemma FlagBits(b: bool, fd: bool)
    ensures HasBlock(Flags(b, fd)) == b && HasFd(Flags(b, fd)) == fd
  {
  }

  /** Pushing a row for a command that has none. */
  lemma PushKeeps(r: Rules, cs: seq<CtrlDesc>, c: CtrlDesc, done: seq<u32>)
    requires Sound(r, cs, done) && !HasRow(cs, c.cmd) && Listed(r, c.cmd)
    requires c.first == 0 && c.count == 0 && RowFlagged(r, c, c.cmd in done)
    ensures Sound(r, cs + [c], done)
  {
    var cs' := cs + [c];
    assert Leads(r, cs', |r.nestedCmds|);
    assert Flagged(r, cs', |r.nestedCmds|, done);
    assert Extras(cs', |r.nestedCmds|) by {
      forall j | 0 <= j < |cs| ensures cs[j].cmd != c.cmd { assert !HasRow(cs, c.cmd); }
    }
  }

  /** A command without a late row may be ticked off. */
  lemma DoneGrows(r: Rules, cs: seq<CtrlDesc>, cmd: u32, done: seq<u32>)
    requires Sound(r, cs, done) && forall i :: |r.nestedCmds| <= i < |cs| ==> cs[i].cmd != cmd
    ensures Sound(r, cs, done + [cmd])
  {
    forall i | 0 <= i < |cs| ensures RowFlagged(r, cs[i], i < |r.nestedCmds| || cs[i].cmd in done + [cmd]) {
      assert RowFlagged(r, cs[i], i < |r.nestedCmds| || cs[i].cmd in done);
    }
  }

  /** The row with its fd filled in. */
  function Patched(c: CtrlDesc, off: u32): CtrlDesc
    requires c.flags < 4
  {
    c.(flags := if HasFd(c.flags) then c.flags else c.flags + 2, fdOff := off)
  }

  lemma PatchedRow(r: Rules, c: CtrlDesc, fd: bool)
    requires RowFlagged(r, c, fd) && r.fdOffset(c.cmd).Some?
    ensures c.flags < 4 && Patched(c, r.fdOffset(c.cmd).value) == CtrlRow(r, c.cmd, c.first, c.count, true)
  {
    FlagBits(c.cmd in r.blocked, fd);
  }

  /** Replacing row `i` by its completed form. */
  lemma PatchKeeps(r: Rules, cs: seq<CtrlDesc>, i: nat, c: CtrlDesc, done: seq<u32>)
    requires Sound(r, cs, done) && i < |cs| && r.fdOffset(cs[i].cmd).Some?
    requires c == CtrlRow(r, cs[i].cmd, cs[i].first, cs[i].count, true)
    ensures Sound(r, cs[i := c], done + [cs[i].cmd])
  {
    var cs', n := cs[i := c], |r.nestedCmds|;
    assert Leads(r, cs', n);
    assert Extras(cs', n);
    assert Known(r, cs');
    forall j | 0 <= j < |cs'| ensures RowFlagged(r, cs'[j], j < n || cs'[j].cmd in done + [cs[i].cmd]) {
      if j != i {
        assert RowFlagged(r, cs[j], j < n || cs[j].cmd in done);
        assert j >= n ==> cs[j].cmd != cs[i].cmd;
      }
    }
  }

  method CollectNested(r: Rules) returns (cs: seq<CtrlDesc>, nested: seq<NestedRow>)
    requires WellFormed(r)
    ensures nested == AllNested(r, r.nestedCmds)
    ensures Sound(r, cs, [])
  {
    cs, nested := [], [];
    assert r.nestedCmds[..|r.nestedCmds|] == r.nestedCmds;
    for k := 0 to |r.nestedCmds|
      invariant |cs| == k && Leads(r, cs, k) && Flagged(r, cs, k, []) && Known(r, cs)
      invariant nested == AllNested(r, r.nestedCmds[..k])
    {
      var cmd := r.nestedCmds[k];
      var specs := r.nested(cmd);
      var fd := r.fdOffset(cmd);
      AllNestedNext(r, r.nestedCmds, k);
      AllNestedGrows(r, r.nestedCmds, k + 1, |r.nestedCmds|);
      var c := CtrlDesc(cmd, |nested|, |specs|, Flags(cmd in r.blocked, fd.Some?), OrNone(fd));
      LeadKeeps(r, cs, c);
      cs := cs + [c];
      nested := nested + NestedRowsOf(specs);
    }
  }

  lemma LeadKeeps(r: Rules, cs: seq<CtrlDesc>, c: CtrlDesc)
    requires |cs| < |r.nestedCmds| && Leads(r, cs, |cs|) && Flagged(r, cs, |cs|, []) && Known(r, cs)
    requires c.cmd == r.nestedCmds[|cs|] && RowFlagged(r, c, true)
    requires c.first == |AllNested(r, r.nestedCmds[..|cs|])| && c.count == |r.nested(c.cmd)|
    ensures Leads(r, cs + [c], |cs| + 1) && Flagged(r, cs + [c], |cs| + 1, []) && Known(r, cs + [c])
  {
    var cs' := cs + [c];
    forall j | 0 <= j < |cs'| ensures RowFlagged(r, cs'[j], j < |cs| + 1 || cs'[j].cmd in []) {
      if j < |cs| { assert RowFlagged(r, cs[j], true); }
    }
  }

  method AddBlocked(r: Rules, cs0: seq<CtrlDesc>) returns (cs: seq<CtrlDesc>)
    requires Sound(r, cs0, [])
    ensures Sound(r, cs, []) && HasRows(cs, r.blocked)
  {
    cs := cs0;
    for k := 0 to |r.blocked|
      invariant Sound(r, cs, [])
      invariant forall j :: 0 <= j < k ==> HasRow(cs, r.blocked[j])
    {
      var i := IndexOf(cs, r.blocked[k]);
      if i == |cs| {
        var c := CtrlDesc(r.blocked[k], 0, 0, Flags(true, false), NONE);
        PushKeeps(r, cs, c, []);
        assert (cs + [c])[|cs|].cmd == r.blocked[k];
        forall j | 0 <= j < k ensures HasRow(cs + [c], r.blocked[j]) { RowStays(cs, cs + [c], r.blocked[j]); }
        cs := cs + [c];
      }
    }
  }

  /** Row by row the same commands, and perhaps more rows. */
  predicate Extends(cs: seq<CtrlDesc>, cs': seq<CtrlDesc>) {
    |cs| <= |cs'| && forall i :: 0 <= i < |cs| ==> cs'[i].cmd == cs[i].cmd
  }

  lemma RowStays(cs: seq<CtrlDesc>, cs': seq<CtrlDesc>, cmd: u32)
    requires Extends(cs, cs') && HasRow(cs, cmd)
    ensures HasRow(cs', cmd)
  {
    var i :| 0 <= i < |cs| && cs[i].cmd == cmd;
    assert cs'[i].cmd == cmd;
  }

  predicate HasRows(cs: seq<CtrlDesc>, cmds: seq<u32>) {
    forall j :: 0 <= j < |cmds| ==> HasRow(cs, cmds[j])
  }

  lemma RowsStay(cs: seq<CtrlDesc>, cs': seq<CtrlDesc>, cmds: seq<u32>)
    requires Extends(cs, cs') && HasRows(cs, cmds)
    ensures HasRows(cs', cmds)
  {
    forall j | 0 <= j < |cmds| ensures HasRow(cs', cmds[j]) { RowStays(cs, cs', cmds[j]); }
  }

  method AddFds(r: Rules, cs0: seq<CtrlDesc>) returns (cs: seq<CtrlDesc>)
    requires WellFormed(r) && Sound(r, cs0, []) && HasRows(cs0, r.blocked)
    ensures Sound(r, cs, r.fdCmds) && HasRows(cs, r.blocked) && HasRows(cs, r.fdCmds)
  {
    cs := cs0;
    for k := 0 to |r.fdCmds|
      invariant Sound(r, cs, r.fdCmds[..k]) && HasRows(cs, r.blocked) && HasRows(cs, r.fdCmds[..k])
    {
      cs := AddFd(r, cs, r.fdCmds[k], r.fdCmds[..k]);
      assert r.fdCmds[..k + 1] == r.fdCmds[..k] + [r.fdCmds[k]];
    }
    assert r.fdCmds[..|r.fdCmds|] == r.fdCmds;
  }

  /** One command of the fd list: patch its row in place, or push one. */
  method AddFd(r: Rules, cs0: seq<CtrlDesc>, cmd: u32, ghost done: seq<u32>) returns (cs: seq<CtrlDesc>)
    requires cmd in r.fdCmds && r.fdOffset(cmd).Some?
    requires Sound(r, cs0, done) && HasRows(cs0, r.blocked) && HasRows(cs0, done)
    ensures Sound(r, cs, done + [cmd]) && HasRows(cs, r.blocked) && HasRows(cs, done + [cmd])
    // the command gets its row, one more only if it had none; every other row stays what and where it was
    ensures HasRow(cs, cmd) && |cs| == |cs0| + (if HasRow(cs0, cmd) then 0 else 1) && Extends(cs0, cs)
    ensures forall j :: 0 <= j < |cs0| && cs0[j].cmd != cmd ==> cs[j] == cs0[j]
  {
    var i := IndexOf(cs0, cmd);
    var off := r.fdOffset(cmd).value;
    if i < |cs0| {
      PatchedRow(r, cs0[i], i < |r.nestedCmds| || cs0[i].cmd in done);
      PatchKeeps(r, cs0, i, Patched(cs0[i], off), done);
      cs := cs0[i := Patched(cs0[i], off)];
      assert cs[i].cmd == cmd;
    } else {
      var c := CtrlDesc(cmd, 0, 0, Flags(false, true), off);
      DoneGrows(r, cs0, cmd, done);
      PushKeeps(r, cs0, c, done + [cmd]);
      cs := cs0 + [c];
      assert cs[|cs0|].cmd == cmd;
    }
    RowsStay(cs0, cs, r.blocked);
    RowsStay(cs0, cs, done);
  }

  predicate AllDifferent(cmds: seq<u32>) {
    forall i, j :: 0 <= i < j < |cmds| ==> cmds[i] != cmds[j]
  }

  predicate OneRowEach(cs: seq<CtrlDesc>) {
    forall i, j :: 0 <= i < j < |cs| ==> cs[i].cmd != cs[j].cmd
  }

  /**
   * The whole control table: a row for exactly the commands of the three lists,
   * each with the union of its flags, and one row per command exactly when the
   * nested list names no command twice.
   */
  method CollectCtrls(r: Rules) returns (cs: seq<CtrlDesc>, nested: seq<NestedRow>)
    requires WellFormed(r)
    ensures nested == AllNested(r, r.nestedCmds)
    ensures forall cmd :: HasRow(cs, cmd) <==> Listed(r, cmd)
    ensures forall i :: 0 <= i < |cs| ==> cs[i] == CtrlRow(r, cs[i].cmd, cs[i].first, cs[i].count, cs[i].cmd in r.fdCmds)
    ensures Leads(r, cs, |r.nestedCmds|) && Extras(cs, |r.nestedCmds|)
    ensures OneRowEach(cs) <==> AllDifferent(r.nestedCmds)
  {
    cs, nested := CollectNested(r);
    ghost var c0 := cs;
    cs := AddBlocked(r, cs);
    ghost var c1 := cs;
    cs := AddFds(r, cs);
    forall i | 0 <= i < |cs| ensures cs[i] == CtrlRow(r, cs[i].cmd, cs[i].first, cs[i].count, cs[i].cmd in r.fdCmds) {
      assert RowFlagged(r, cs[i], i < |r.nestedCmds| || cs[i].cmd in r.fdCmds);
    }
    forall cmd ensures HasRow(cs, cmd) <==> Listed(r, cmd) {
      if cmd in r.nestedCmds {
        var i :| 0 <= i < |r.nestedCmds| && r.nestedCmds[i] == cmd;
        assert cs[i].cmd == cmd;
      }
    }
    DifferentIff(r, cs);
  }

  lemma DifferentIff(r: Rules, cs: seq<CtrlDesc>)
    requires Leads(r, cs, |r.nestedCmds|) && Extras(cs, |r.nestedCmds|)
    ensures OneRowEach(cs) <==> AllDifferent(r.nestedCmds)
  {
    if OneRowEach(cs) {
      forall i, j | 0 <= i < j < |r.nestedCmds| ensures r.nestedCmds[i] != r.nestedCmds[j] {
        assert cs[i].cmd != cs[j].cmd;
      }
    }
  }

  // --------------------------------------- the nested ranges partition the nested table

  /** Row `i` of the nested commands names nested row `n`. */
  predicate Covers(c: CtrlDesc, n: nat) { c.first <= n < c.first + c.count }

  lemma RangeIs(r: Rules, cs: seq<CtrlDesc>, i: nat)
    requires Leads(r, cs, |r.nestedCmds|) && i < |r.nestedCmds|
    ensures cs[i].first + cs[i].count == |AllNested(r, r.nestedCmds[..i + 1])|
    ensures cs[i].first + cs[i].count <= |AllNested(r, r.nestedCmds)|
    ensures AllNested(r, r.nestedCmds)[cs[i].first..cs[i].first + cs[i].count] == NestedRowsOf(r.nested(cs[i].cmd))
  {
    AllNestedNext(r, r.nestedCmds, i);
    assert r.nestedCmds[..|r.nestedCmds|] == r.nestedCmds;
    AllNestedGrows(r, r.nestedCmds, i + 1, |r.nestedCmds|);
    var all, upTo := AllNested(r, r.nestedCmds), AllNested(r, r.nestedCmds[..i + 1]);
    assert all[cs[i].first..cs[i].first + cs[i].count] == all[..|upTo|][cs[i].first..];
  }

  lemma {:induction false} SomeRowCovers(r: Rules, cs: seq<CtrlDesc>, k: nat, n: nat)
    requires Leads(r, cs, |r.nestedCmds|) && k <= |r.nestedCmds| && n < |AllNested(r, r.nestedCmds[..k])|
    ensures exists i :: 0 <= i < k && Covers(cs[i], n)
    decreases k
  {
    if k > 0 {
      RangeIs(r, cs, k - 1);
      if n < cs[k - 1].first {
        SomeRowCovers(r, cs, k - 1, n);
      } else {
        assert Covers(cs[k - 1], n);
      }
    }
  }

  /** Every nested row belongs to exactly one control, so no row is shared or left over. */
  lemma NestedRowsArePartitioned(r: Rules, cs: seq<CtrlDesc>, n: nat)
    requires Leads(r, cs, |r.nestedCmds|) && Extras(cs, |r.nestedCmds|) && n < |AllNested(r, r.nestedCmds)|
    ensures exists i :: 0 <= i < |cs| && Covers(cs[i], n)
    ensures forall i, j :: 0 <= i < j < |cs| && Covers(cs[i], n) ==> !Covers(cs[j], n)
  {
    assert r.nestedCmds[..|r.nestedCmds|] == r.nestedCmds;
    SomeRowCovers(r, cs, |r.nestedCmds|, n);
    forall i, j | 0 <= i < j < |cs| && Covers(cs[i], n) ensures !Covers(cs[j], n) {
      if j < |r.nestedCmds| {
        RangeIs(r, cs, i);
        AllNestedGrows(r, r.nestedCmds, i + 1, j);
      }
    }
  }

  /** The parser accepts what the builder collects, provided no control names more than four pointers. */
  lemma CollectedIsAccepted(r: Rules, p: Parts)
    requires Leads(r, p.ctrls, |r.nestedCmds|) && Extras(p.ctrls, |r.nestedCmds|) && p.nested == AllNested(r, r.nestedCmds)
    requires FitsStream(p)
    ensures Judge(Stream(p)).Accepted? <==> forall i :: 0 <= i < |r.nestedCmds| ==> |r.nested(r.nestedCmds[i])| <= MAX_NESTED
    ensures Whole(Stream(p)) && Lists(Stream(p)) == p
  {
    SerializedIsParsed(p);
    forall i | 0 <= i < |p.ctrls|
      ensures CtrlFits(p.ctrls[i], MAX_NESTED, |p.nested|) <==> i >= |r.nestedCmds| || |r.nested(r.nestedCmds[i])| <= MAX_NESTED
    {
      if i < |r.nestedCmds| { RangeIs(r, p.ctrls, i); }
    }
    if Judge(Stream(p)).Accepted? {
      forall i | 0 <= i < |r.nestedCmds| ensures |r.nested(r.nestedCmds[i])| <= MAX_NESTED {
        assert CtrlFits(p.ctrls[i], MAX_NESTED, |p.nested|);
      }
    }
  }
}
