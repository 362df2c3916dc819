/** Guest-visible GPU names: printed from a specification, bounded, and read back. ASCII boards. */
module Naming {
  import opened Common

  datatype Transport = Vfio | Virtio

  datatype Format = Legacy | WithTransport

  /** A board name, trimmed when it was made, and a framebuffer size in whole MiB. */
  datatype Spec = Spec(transport: Transport, board: string, mib: Option<nat>)

  datatype Parsed = NotAName | Parsed(transport: Option<Transport>, board: string, mib: Option<nat>)

  function Platform(): string { "Leandro" }

  function Fallback(): string { "Leandro GPU" }

  function Word(t: Transport): (w: string)
    ensures ' ' !in w && w != ""
  {
    match t
    case Vfio => "VFIO"
    case Virtio => "VirtIO"
  }

  // ------------------------------------------------------------------ string tools

  /** The index of the first `c`, or the length. */
  function FirstIndex(s: string, c: char): (i: nat)
    ensures i <= |s| && c !in s[..i] && (i < |s| ==> s[i] == c)
  {
    if s == "" then 0 else if s[0] == c then 0
    else
      var i := FirstIndex(s[1..], c);
      assert s[..i + 1] == [s[0]] + s[1..][..i];
      i + 1
  }

  /** The index of the last `c`, or the length. */
  function LastIndex(s: string, c: char): (i: nat)
    ensures i <= |s| && (i < |s| ==> s[i] == c && c !in s[i + 1..]) && (i == |s| ==> c !in s)
  {
    if s == "" then 0 else if s[|s| - 1] == c then |s| - 1
    else
      var t := s[..|s| - 1];
      var i := LastIndex(t, c);
      assert s == t + [s[|s| - 1]];
      if i == |t| then |s|
      else assert s[i + 1..] == t[i + 1..] + [s[|s| - 1]]; i
  }

  lemma FirstIs(s: string, c: char, i: nat)
    requires i < |s| && s[i] == c && c !in s[..i]
    ensures FirstIndex(s, c) == i
  {
    var f := FirstIndex(s, c);
  }

  lemma LastIs(s: string, c: char, i: nat)
    requires i < |s| && s[i] == c && c !in s[i + 1..]
    ensures LastIndex(s, c) == i
  {
    var l := LastIndex(s, c);
  }

  predicate Space(c: char) { c == ' ' || c == '\t' || c == '\n' || c == '\r' || c == '\U{b}' || c == '\U{c}' }

  function TrimStart(s: string): string {
    if s != "" && Space(s[0]) then TrimStart(s[1..]) else s
  }

  function TrimEnd(s: string): string {
    if s != "" && Space(s[|s| - 1]) then TrimEnd(s[..|s| - 1]) else s
  }

  function Trim(s: string): string { TrimEnd(TrimStart(s)) }

  /** Neither end is white space. */
  predicate Trimmed(s: string) { s != "" ==> !Space(s[0]) && !Space(s[|s| - 1]) }

  lemma TrimmedStays(s: string)
    requires Trimmed(s)
    ensures Trim(s) == s
  {
  }

  // ------------------------------------------------------------------------ labels

  predicate Digit(c: char) { '0' <= c <= '9' }

  predicate Digits(s: string) { forall i :: 0 <= i < |s| ==> Digit(s[i]) }

  function DigitOf(n: nat): char
    requires n < 10
  {
    '0' + n as char
  }

  function ValueOf(c: char): nat
    requires Digit(c)
  {
    c as int - '0' as int
  }

  function Decimal(n: nat): (s: string)
    ensures s != "" && Digits(s)
  {
    if n < 10 then [DigitOf(n)] else Decimal(n / 10) + [DigitOf(n % 10)]
  }

  function Value(s: string): nat
    requires Digits(s)
  {
    if s == "" then 0 else 10 * Value(s[..|s| - 1]) + ValueOf(s[|s| - 1])
  }

  lemma {:induction false} ValueOfDecimal(n: nat)
    ensures Value(Decimal(n)) == n
    decreases n
  {
    if n < 10 {
      assert Decimal(n)[..0] == "";
    } else {
      ValueOfDecimal(n / 10);
      assert Decimal(n)[..|Decimal(n)| - 1] == Decimal(n / 10);
    }
  }

  /** `<n>G` for whole GiB, `<n>M` otherwise. */
  function Label(mib: nat): string {
    if mib % 1024 == 0 then Decimal(mib / 1024) + "G" else Decimal(mib) + "M"
  }

  function Scale(unit: char): nat { if unit == 'G' then 1024 else if unit == 'M' then 1 else 0 }

  /** A label read back; anything that is not a label, overflows 64 bits or is zero is none. */
  function FromLabel(s: string): Option<nat> {
    if |s| < 2 || !Digits(s[..|s| - 1]) then None
    else
      var n, scale := Value(s[..|s| - 1]), Scale(s[|s| - 1]);
      if scale == 0 || n >= U64 then None
      else if n * scale >= U64 || n * scale == 0 then None
      else Some(n * scale)
  }

  /** A size survives its label. */
  lemma LabelRoundTrip(mib: nat)
    requires 0 < mib < U64
    ensures FromLabel(Label(mib)) == Some(mib)
  {
    var n := if mib % 1024 == 0 then mib / 1024 else mib;
    ValueOfDecimal(n);
    assert Label(mib)[..|Label(mib)| - 1] == Decimal(n);
  }

  /** No digits for a number are fewer than its decimal form, and none but it are as few. */
  lemma {:induction false} DecimalIsShortest(ds: string)
    requires Digits(ds) && ds != ""
    ensures |Decimal(Value(ds))| <= |ds|
    ensures |Decimal(Value(ds))| == |ds| ==> Decimal(Value(ds)) == ds
    decreases |ds|
  {
    var front, v := ds[..|ds| - 1], ValueOf(ds[|ds| - 1]);
    assert Value(ds) == 10 * Value(front) + v;
    assert DigitOf(v) == ds[|ds| - 1];
    assert ds == front + [ds[|ds| - 1]];
    if front == "" {
      assert Decimal(Value(ds)) == [DigitOf(v)];
    } else {
      DecimalIsShortest(front);
      if Value(front) > 0 {
        assert Value(ds) / 10 == Value(front) && Value(ds) % 10 == v;
        assert Decimal(Value(ds)) == Decimal(Value(front)) + [DigitOf(v)];
      }
    }
  }

  lemma {:induction false} DecimalGrows(a: nat, b: nat)
    requires a <= b
    ensures |Decimal(a)| <= |Decimal(b)|
    decreases b
  {
    if a >= 10 { DecimalGrows(a / 10, b / 10); }
  }

  lemma GibIsShorter(gib: nat)
    requires gib > 0
    ensures |Decimal(gib)| < |Decimal(1024 * gib)|
  {
    assert Decimal(10 * gib) == Decimal(gib) + [DigitOf(0)];
    DecimalGrows(10 * gib, 1024 * gib);
  }

  /**
   * The label is the shortest string that reads back as the size, and the only
   * one of its length: so whole GiB are printed in GiB, anything else in MiB,
   * and without leading zeros.
   */
  lemma LabelIsShortest(mib: nat, s: string)
    requires 0 < mib < U64 && FromLabel(s) == Some(mib)
    ensures |Label(mib)| <= |s| && (|Label(mib)| == |s| ==> s == Label(mib))
    ensures Label(mib)[|Label(mib)| - 1] == if mib % 1024 == 0 then 'G' else 'M'
  {
    var ds, unit := s[..|s| - 1], s[|s| - 1];
    assert s == ds + [unit];
    DecimalIsShortest(ds);
    if unit == 'M' {
      assert Value(ds) == mib;
      if mib % 1024 == 0 { GibIsShorter(mib / 1024); }
    } else {
      assert Value(ds) * 1024 == mib;
      assert mib % 1024 == 0 && mib / 1024 == Value(ds);
    }
  }

  lemma DigitsHave(s: string, c: char)
    requires Digits(s) && !Digit(c)
    ensures c !in s
  {
  }

  /** A label has no blank and no hyphen, and does not end in white space. */
  lemma LabelIsPlain(mib: nat)
    ensures ' ' !in Label(mib) && '-' !in Label(mib) && |Label(mib)| > 0 && !Space(Label(mib)[|Label(mib)| - 1])
  {
    var n := if mib % 1024 == 0 then mib / 1024 else mib;
    DigitsHave(Decimal(n), ' ');
    DigitsHave(Decimal(n), '-');
  }

  // ---------------------------------------------------------------- printing a name

  function Head(s: Spec, f: Format): string {
    match f
    case Legacy => Platform() + " " + s.board
    case WithTransport => Platform() + " " + Word(s.transport) + " " + s.board
  }

  function Suffix(mib: Option<nat>): string {
    if mib.Some? then "-" + Label(mib.value) else ""
  }

  function GuestName(s: Spec, f: Format): string { Head(s, f) + Suffix(s.mib) }

  /** The name for a NUL-terminated field of `max` bytes. */
  function GuestNameWithin(s: Spec, f: Format, max: nat): string {
    if |GuestName(s, f)| < max then GuestName(s, f) else if |Head(s, f)| < max then Head(s, f) else Fallback()
  }

  // ----------------------------------------------------------------- reading it back

  /** The rest of `s` behind its first word, if that word is `w`. */
  function AfterWord(s: string, w: string): Option<string> {
    var i := FirstIndex(s, ' ');
    if i < |s| && s[..i] == w then Some(s[i + 1..]) else None
  }

  /** Board and size behind the transport. */
  function BoardAndSize(rest: string): (string, Option<nat>) {
    var i := LastIndex(rest, '-');
    if i == |rest| then (rest, None)
    else match FromLabel(rest[i + 1..])
      case Some(mib) => (rest[..i], Some(mib))
      case None => (rest, None)
  }

  function TransportAndRest(rest: string): (Option<Transport>, string) {
    if AfterWord(rest, Word(Vfio)).Some? then (Some(Vfio), AfterWord(rest, Word(Vfio)).value)
    else if AfterWord(rest, Word(Virtio)).Some? then (Some(Virtio), AfterWord(rest, Word(Virtio)).value)
    else (None, rest)
  }

  function StripPrefix(s: string, p: string): Option<string> {
    if p <= s then Some(s[|p|..]) else None
  }

  function ParseRest(rest: string): Parsed {
    var (transport, r) := TransportAndRest(rest);
    var (board, mib) := BoardAndSize(r);
    if Trim(board) == "" then NotAName else Parsed(transport, Trim(board), mib)
  }

  function ParseName(name: string): Parsed {
    match StripPrefix(Trim(name), Platform() + " ")
    case None => NotAName
    case Some(rest) => ParseRest(rest)
  }

  // ------------------------------------------------------------ reading undoes printing

  /** The board itself starts like a transport word. */
  predicate LooksLikeTransport(board: string) { Word(Vfio) + " " <= board || Word(Virtio) + " " <= board }

  /** The board itself ends like a size. */
  predicate LooksSized(board: string) {
    var i := LastIndex(board, '-'); i < |board| && FromLabel(board[i + 1..]).Some?
  }

  lemma WordAtFront(w: string, r: string)
    requires ' ' !in w
    ensures AfterWord(w + " " + r, w) == Some(r)
    ensures forall v :: v != w ==> AfterWord(w + " " + r, v).None?
  {
    var s := w + " " + r;
    assert s[..|w|] == w;
    FirstIs(s, ' ', |w|);
  }

  /** Something without blanks behind the board does not change its first word. */
  lemma WordOfBoard(board: string, tail: string, w: string)
    requires ' ' !in w && ' ' !in tail
    ensures AfterWord(board + tail, w).Some? <==> w + " " <= board
  {
    var s, i := board + tail, FirstIndex(board + tail, ' ');
    if i < |s| { assert i < |board| && s[..i] == board[..i]; }
    if w + " " <= board {
      assert board[..|w|] == w && s[..|w|] == w && s[|w|] == ' ';
      FirstIs(s, ' ', |w|);
    }
    assert i < |board| && board[..i] == w && board[i] == ' ' ==> board[..i + 1] == w + " ";
  }

  lemma SizedRest(board: string, mib: nat)
    requires 0 < mib < U64
    ensures BoardAndSize(board + Suffix(Some(mib))) == (board, Some(mib))
  {
    LabelIsPlain(mib);
    LabelRoundTrip(mib);
    AtHyphen(board, Label(mib), board + Suffix(Some(mib)));
  }

  /** The last hyphen is the one in front of something without hyphens. */
  lemma AtHyphen(board: string, size: string, s: string)
    requires '-' !in size && s == board + ("-" + size)
    ensures var i := LastIndex(s, '-'); i == |board| < |s| && s[..i] == board && s[i + 1..] == size
  {
    assert s[|board| + 1..] == size && s[..|board|] == board;
    LastIs(s, '-', |board|);
  }

  /** A bare board reads as itself exactly when it does not end like a size. */
  lemma BareRest(board: string)
    ensures BoardAndSize(board + Suffix(None)) == (board, None) <==> !LooksSized(board)
    ensures LooksSized(board) ==> BoardAndSize(board + Suffix(None)).1.Some?
  {
    assert board + Suffix(None) == board;
  }

  predicate ValidSpec(s: Spec) {
    Trimmed(s.board) && (s.mib.Some? ==> 0 < s.mib.value < U64)
  }

  /** The fields a name of this format carries. */
  function Carried(s: Spec, f: Format): Parsed {
    Parsed(if f.Legacy? then None else Some(s.transport), s.board, s.mib)
  }

  /** What follows the platform word. */
  function Rest(s: Spec, f: Format): string {
    (if f.Legacy? then "" else Word(s.transport) + " ") + s.board + Suffix(s.mib)
  }

  lemma RestIs(s: Spec, f: Format)
    ensures GuestName(s, f) == Platform() + " " + Rest(s, f)
  {
    if f.Legacy? {
      assert Rest(s, f) == s.board + Suffix(s.mib);
      assert GuestName(s, f) == Platform() + " " + s.board + Suffix(s.mib);
    } else {
      assert Rest(s, f) == Word(s.transport) + " " + s.board + Suffix(s.mib);
    }
  }

  lemma NameIsTrimmed(s: Spec, f: Format)
    requires ValidSpec(s) && s.board != ""
    ensures Trim(GuestName(s, f)) == GuestName(s, f)
  {
    var n := GuestName(s, f);
    RestIs(s, f);
    assert n[0] == 'L';
    if s.mib.Some? {
      LabelIsPlain(s.mib.value);
      assert n[|n| - 1] == Label(s.mib.value)[|Label(s.mib.value)| - 1];
    } else {
      assert n[|n| - 1] == s.board[|s.board| - 1];
    }
    TrimmedStays(n);
  }

  lemma ParsesRest(s: Spec, f: Format)
    requires ValidSpec(s) && s.board != ""
    ensures ParseName(GuestName(s, f)) == ParseRest(Rest(s, f))
  {
    NameIsTrimmed(s, f);
    RestIs(s, f);
    var p := Platform() + " ";
    assert GuestName(s, f)[..|p|] == p && GuestName(s, f)[|p|..] == Rest(s, f);
  }

  lemma SuffixHasNoBlank(mib: Option<nat>)
    ensures ' ' !in Suffix(mib)
  {
    if mib.Some? { LabelIsPlain(mib.value); }
  }

  lemma LegacyBack(s: Spec, f: Format)
    requires f.Legacy?
    ensures TransportAndRest(Rest(s, f)) == (None, s.board + Suffix(s.mib)) <==> !LooksLikeTransport(s.board)
    ensures LooksLikeTransport(s.board) ==> TransportAndRest(Rest(s, f)).0.Some?
  {
    assert Rest(s, f) == s.board + Suffix(s.mib);
    SuffixHasNoBlank(s.mib);
    WordOfBoard(s.board, Suffix(s.mib), Word(Vfio));
    WordOfBoard(s.board, Suffix(s.mib), Word(Virtio));
  }

  lemma NamedBack(s: Spec, f: Format)
    requires !f.Legacy?
    ensures TransportAndRest(Rest(s, f)) == (Some(s.transport), s.board + Suffix(s.mib))
  {
    var tail := s.board + Suffix(s.mib);
    assert Rest(s, f) == Word(s.transport) + " " + tail;
    WordAtFront(Word(s.transport), tail);
  }

  /** The transport read back, and whether what is left is board and size. */
  lemma TransportBack(s: Spec, f: Format)
    ensures TransportAndRest(Rest(s, f)) == (Carried(s, f).transport, s.board + Suffix(s.mib)) <==> !(f.Legacy? && LooksLikeTransport(s.board))
    ensures f.Legacy? && LooksLikeTransport(s.board) ==> TransportAndRest(Rest(s, f)).0.Some?
  {
    if f.Legacy? { LegacyBack(s, f); } else { NamedBack(s, f); }
  }

  lemma SizeBack(s: Spec)
    requires ValidSpec(s)
    ensures BoardAndSize(s.board + Suffix(s.mib)) == (s.board, s.mib) <==> !(s.mib.None? && LooksSized(s.board))
    ensures s.mib.None? && LooksSized(s.board) ==> BoardAndSize(s.board + Suffix(s.mib)).1.Some?
  {
    if s.mib.Some? { SizedRest(s.board, s.mib.value); } else { BareRest(s.board); }
  }

  /** Exactly the boards that can be told apart from what surrounds them. */
  predicate Unambiguous(s: Spec, f: Format) {
    s.board != "" && !(f.Legacy? && LooksLikeTransport(s.board)) && !(s.mib.None? && LooksSized(s.board))
  }

  /** `parse_name` inverts `guest_name` for exactly the unambiguous boards. */
  lemma ParseInvertsPrint(s: Spec, f: Format)
    requires ValidSpec(s)
    ensures ParseName(GuestName(s, f)) == Carried(s, f) <==> Unambiguous(s, f)
  {
    if s.board != "" {
      ParsesRest(s, f);
      TransportBack(s, f);
      SizeBack(s);
      TrimmedStays(s.board);
    } else {
      NoBoardNoParse(s, f);
    }
  }

  lemma ParsedHasBoard(name: string)
    ensures ParseName(name).Parsed? ==> ParseName(name).board != ""
  {
  }

  lemma NoBoardNoParse(s: Spec, f: Format)
    requires s.board == ""
    ensures ParseName(GuestName(s, f)) != Carried(s, f)
  {
    ParsedHasBoard(GuestName(s, f));
  }

  // ----------------------------------------------------------------- the bounded form

  lemma FallbackHasNoSize()
    ensures ParseName(Fallback()) == Parsed(None, "GPU", None)
  {
    var s := Spec(Vfio, "GPU", None);
    assert GuestName(s, Legacy) == Fallback();
    assert !LooksSized("GPU") by { assert LastIndex("GPU", '-') == 3; }
    assert !LooksLikeTransport("GPU");
    ParseInvertsPrint(s, Legacy);
  }

  /** What the bounded form prints: the whole name, the name without its size, or the fallback. */
  function Printed(s: Spec, f: Format, max: nat): Option<Spec> {
    if |GuestName(s, f)| < max then Some(s) else if |Head(s, f)| < max then Some(s.(mib := None)) else None
  }

  /**
   * The bounded form never carries a part of a size: it is the name of the same
   * board with its whole size or with none, and fits, or it is the fallback; and
   * it reads back as what was printed for exactly the unambiguous boards.
   */
  lemma BoundedNameKeepsSizeWhole(s: Spec, f: Format, max: nat)
    requires ValidSpec(s)
    ensures var n := GuestNameWithin(s, f, max);
      match Printed(s, f, max)
      case Some(p) =>
        && n == GuestName(p, f) && |n| < max
        && p.transport == s.transport && p.board == s.board && (p.mib == s.mib || p.mib == None)
        && (|GuestName(s, f)| < max ==> p == s)
        && (ParseName(n) == Carried(p, f) <==> Unambiguous(p, f))
      case None => n == Fallback() && |Head(s, f)| >= max && ParseName(n) == Parsed(None, "GPU", None)
  {
    match Printed(s, f, max)
    case Some(p) =>
      assert GuestName(s.(mib := None), f) == Head(s, f);
      ParseInvertsPrint(p, f);
    case None => FallbackHasNoSize();
  }

  lemma WordTail(board: string, tail: string, w: string)
    requires ' ' !in w && ' ' !in tail && AfterWord(board + tail, w).Some?
    ensures exists rest :: AfterWord(board + tail, w) == Some(rest + tail)
  {
    var s, i := board + tail, FirstIndex(board + tail, ' ');
    assert i < |board|;
    assert s[i + 1..] == board[i + 1..] + tail;
  }

  /** Taking a transport word off the front leaves the size at the end. */
  lemma SuffixStays(s: Spec, f: Format)
    ensures exists rest :: TransportAndRest(Rest(s, f)).1 == rest + Suffix(s.mib)
  {
    TransportBack(s, f);
    if f.Legacy? && LooksLikeTransport(s.board) {
      SuffixHasNoBlank(s.mib);
      assert Rest(s, f) == s.board + Suffix(s.mib);
      var w := if AfterWord(Rest(s, f), Word(Vfio)).Some? then Word(Vfio) else Word(Virtio);
      WordTail(s.board, Suffix(s.mib), w);
    }
  }

  /** A printed size is read whole, whatever the board looks like. */
  lemma PrintedSizeIsRead(s: Spec, f: Format)
    requires ValidSpec(s) && s.mib.Some? && s.board != ""
    ensures ParseName(GuestName(s, f)).Parsed? ==> ParseName(GuestName(s, f)).mib == s.mib
  {
    ParsesRest(s, f);
    SuffixStays(s, f);
    var rest :| TransportAndRest(Rest(s, f)).1 == rest + Suffix(s.mib);
    SizedRest(rest, s.mib.value);
  }
}
