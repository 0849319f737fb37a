/** The bit-flag enumeration of chapter 2: three named flags combined with
    bitwise OR, and the `String` method that labels a flag value with the
    names of the flags it contains. */
module BitFlag {
  import opened Wrappers
  import opened Strings

  /** Go's `BitFlag` has underlying type `int`, 64 bits wide on the platforms
      the program targets. */
  type Flag = x: int | -0x8000_0000_0000_0000 <= x < 0x8000_0000_0000_0000

  /** `flag&f == f` for a single-bit `f`: the bit `f` selects is set. With a
      positive divisor Euclidean division rounds toward minus infinity, as an
      arithmetic right shift does, so negative flags read their two's
      complement bits. */
  predicate Has(flag: int, f: nat)
    requires f > 0
  {
    (flag / f) % 2 == 1
  }

  /** `1 << iota` for iota = 0, 1, 2. */
  const Active: Flag := 1
  const Send: Flag := 2
  const Receive: Flag := 4

  /** The named flags with their labels, in declaration order. */
  const Declared: seq<(nat, string)> := [(Active, "Active"), (Send, "Send"), (Receive, "Receive")]

  /** Position of a label in the declaration order (3 for anything else). */
  function Rank(name: string): nat {
    if name == "Active" then 0
    else if name == "Send" then 1
    else if name == "Receive" then 2
    else 3
  }

  /** Reference definition: the labels of the declared flags set in `flag`,
      in declaration order. */
  function Selected(flag: Flag, decls: seq<(nat, string)>): seq<string> {
    if decls == [] then []
    else (if decls[0].0 > 0 && Has(flag, decls[0].0) then [decls[0].1] else []) + Selected(flag, decls[1..])
  }

  /** The `flags` slice built by `String`: one label per named bit set. */
  function Names(flag: Flag): seq<string> {
    var flags := if Has(flag, Active) then ["Active"] else [];
    var flags := if Has(flag, Send) then flags + ["Send"] else flags;
    var flags := if Has(flag, Receive) then flags + ["Receive"] else flags;
    flags
  }

  /** The list holds exactly the labels of the set flags, each a declared
      label, in strictly increasing declaration order. */
  lemma NamesExact(flag: Flag)
    ensures forall i :: 0 <= i < |Declared| ==> (Declared[i].1 in Names(flag) <==> Has(flag, Declared[i].0))
    ensures forall i :: 0 <= i < |Names(flag)| ==>
      Rank(Names(flag)[i]) < |Declared| && Declared[Rank(Names(flag)[i])].1 == Names(flag)[i]
    ensures forall i, j :: 0 <= i < j < |Names(flag)| ==> Rank(Names(flag)[i]) < Rank(Names(flag)[j])
  {
  }

  /** The three tests of `String` build exactly the reference list. */
  lemma NamesMatchReference(flag: Flag)
    ensures Names(flag) == Selected(flag, Declared)
  {
    assert Selected(flag, Declared[2..]) == if Has(flag, Receive) then ["Receive"] else [];
  }

  /** `BitFlag.String()`. */
  function Format(flag: Flag): string {
    var flags := Names(flag);
    if |flags| > 0 then IntToDecimal(flag) + "(" + Join(flags, '|') + ")"
    else "0()"
  }

  /** Reads a label back into its leading number and the names between the
      parentheses. */
  function ParseLabel(s: string): Option<(int, seq<string>)> {
    match IndexOf(s, '(')
    case None => None
    case Some(p) =>
      if |s| < p + 2 || s[|s| - 1] != ')' then None
      else match ParseInt(s[..p])
        case None => None
        case Some(v) =>
          var inner := s[p + 1..|s| - 1];
          Some((v, if inner == "" then [] else Split(inner, '|')))
  }

  /** The text between the parentheses of a label. */
  function Inner(s: string): string
    requires |s| >= 2
  {
    match IndexOf(s, '(')
    case None => ""
    case Some(p) => if p + 1 <= |s| - 1 then s[p + 1..|s| - 1] else ""
  }

  /** The three constants are the successive powers of two 1, 2 and 4, so
      each selects one bit and no two select the same one. */
  lemma FlagConstants()
    ensures Active == 1 && Send == 2 * Active && Receive == 2 * Send
    ensures forall i :: 0 <= i < |Declared| ==> Declared[i].0 > 0 && Has(Declared[i].0, Declared[i].0)
    ensures forall i, j :: 0 <= i < |Declared| && 0 <= j < |Declared| && i != j ==>
      Declared[i].0 > 0 && !Has(Declared[j].0, Declared[i].0)
  {
  }

  /** Integer division by `f` is pinned down by quotient and remainder. */
  lemma DivUnique(a: int, f: nat, q: int, r: int)
    requires f > 0 && a == q * f + r && 0 <= r < f
    ensures a / f == q
  {
    var q0, r0 := a / f, a % f;
    assert (q - q0) * f == r0 - r;
    if q > q0 {
      Distribute(q - q0 - 1, f);
      assert false;
    } else if q < q0 {
      Distribute(q0 - q - 1, f);
      assert false;
    }
  }

  lemma Distribute(n: nat, f: nat)
    ensures (n + 1) * f == n * f + f && n * f >= 0
  {
  }

  /** Adding an even multiple of `f` keeps the bit that `f` selects. */
  lemma {:induction false} EvenShiftKeepsBit(flag: int, f: nat, n: int)
    requires f > 0
    ensures Has(flag + 2 * n * f, f) <==> Has(flag, f)
  {
    var q, r := flag / f, flag % f;
    assert flag + 2 * n * f == (q + 2 * n) * f + r;
    DivUnique(flag + 2 * n * f, f, q + 2 * n, r);
  }

  /** Adding a multiple of 8 changes only bits above the three named ones. */
  lemma {:induction false} HighBitsIgnored(flag: int, m: int, f: nat)
    requires f == Active || f == Send || f == Receive
    ensures Has(flag + 8 * m, f) <==> Has(flag, f)
  {
    if f == Active {
      EvenShiftKeepsBit(flag, f, 4 * m);
    } else if f == Send {
      EvenShiftKeepsBit(flag, f, 2 * m);
    } else {
      EvenShiftKeepsBit(flag, f, m);
    }
  }

  /** Bits other than the three named ones never change the label list:
      the list depends only on `flag % 8`. */
  lemma OtherBitsIgnored(flag: Flag, m: int)
    requires -0x8000_0000_0000_0000 <= flag + 8 * m < 0x8000_0000_0000_0000
    ensures Names(flag + 8 * m) == Names(flag)
    ensures Names(flag) == Names(flag % 8)
  {
    HighBitsIgnored(flag, m, Active);
    HighBitsIgnored(flag, m, Send);
    HighBitsIgnored(flag, m, Receive);
    var q := flag / 8;
    assert flag % 8 + 8 * q == flag;
    HighBitsIgnored(flag % 8, q, Active);
    HighBitsIgnored(flag % 8, q, Send);
    HighBitsIgnored(flag % 8, q, Receive);
  }

  /** No named bit is set exactly when `flag % 8 == 0`, and then the label is
      `0()`, whatever the value. */
  lemma NoNamedBitQuirk(flag: Flag)
    ensures flag % 8 == 0 <==> Names(flag) == []
    ensures flag % 8 == 0 <==> Format(flag) == "0()"
  {
    OtherBitsIgnored(flag, 0);
    var r := flag % 8;
    assert 0 <= r < 8;
  }

  /** Reading a label back gives the whole signed value and the names of the
      set flags; the quirk shows as a leading 0 when no named bit is set. */
  lemma LabelRoundTrip(flag: Flag)
    ensures ParseLabel(Format(flag)) == Some((if Names(flag) == [] then 0 else flag, Names(flag)))
  {
    if Names(flag) == [] {
      ZeroLabelParses();
    } else {
      NamedLabelParses(flag);
    }
  }

  lemma ZeroLabelParses()
    ensures ParseLabel("0()") == Some((0, []))
  {
    var s := "0()";
    assert IndexOf(s, '(') == Some(1);
    assert s[..1] == "0";
    assert ParseInt("0") == Some(0);
    assert s[2..|s| - 1] == "";
  }

  /** The pieces `ParseLabel` cuts from `d(j)` when `d` holds no `(`. */
  lemma LabelPieces(d: string, j: string)
    requires '(' !in d
    ensures IndexOf(d + "(" + j + ")", '(') == Some(|d|)
    ensures (d + "(" + j + ")")[..|d|] == d
    ensures (d + "(" + j + ")")[|d| + 1..|d| + |j| + 1] == j
  {
    LabelOpen(d, j);
    LabelHead(d, j);
    LabelInner(d, j);
  }

  lemma LabelOpen(d: string, j: string)
    requires '(' !in d
    ensures IndexOf(d + "(" + j + ")", '(') == Some(|d|)
  {
    assert d + "(" + j + ")" == d + ['('] + (j + ")");
    IndexOfFirst(d, '(', j + ")");
  }

  lemma LabelHead(d: string, j: string)
    ensures (d + "(" + j + ")")[..|d|] == d
  {
    var s := d + "(" + j + ")";
    forall i | 0 <= i < |d|
      ensures s[i] == d[i]
    {
    }
  }

  lemma LabelInner(d: string, j: string)
    ensures (d + "(" + j + ")")[|d| + 1..|d| + |j| + 1] == j
  {
    var s := d + "(" + j + ")";
    var mid := s[|d| + 1..|d| + |j| + 1];
    forall i | 0 <= i < |j|
      ensures mid[i] == j[i]
    {
      assert mid[i] == s[|d| + 1 + i];
    }
  }

  /** Any number followed by a non-empty `|`-joined list of names free of
      `|` reads back as that number and list. */
  lemma JoinedLabelParses(v: int, names: seq<string>)
    requires names != [] && names[0] != ""
    requires forall i :: 0 <= i < |names| ==> '|' !in names[i]
    ensures ParseLabel(IntToDecimal(v) + "(" + Join(names, '|') + ")") == Some((v, names))
  {
    var d := IntToDecimal(v);
    var j := Join(names, '|');
    LabelPieces(d, j);
    IntRoundTrip(v);
    JoinNonEmpty(names, '|');
    SplitJoin(names, '|');
  }

  lemma NamedLabelParses(flag: Flag)
    requires Names(flag) != []
    ensures ParseLabel(Format(flag)) == Some((flag, Names(flag)))
  {
    var names := Names(flag);
    NamesExact(flag);
    assert forall i :: 0 <= i < |Declared| ==> '|' !in Declared[i].1 && Declared[i].1 != "";
    JoinedLabelParses(flag, names);
  }

  /** The text between the parentheses is empty exactly for the `0()` label. */
  lemma InnerEmptyOnlyForZero(flag: Flag)
    ensures Inner(Format(flag)) != "" <==> Format(flag) != "0()"
  {
    LabelRoundTrip(flag);
    var s := Format(flag);
    if s == "0()" {
      assert IndexOf(s, '(') == Some(1);
    }
  }

  /** `Format` of a flag with named bits, from its numeral and names. */
  lemma LabelOf(flag: Flag, digits: string, names: seq<string>)
    requires IntToDecimal(flag) == digits && Names(flag) == names && names != []
    ensures Format(flag) == digits + "(" + Join(names, '|') + ")"
  {
  }

  /** Labels printed by the demonstration program for single flags. */
  lemma DemoSingleLabels()
    ensures Format(Active) == "1(Active)"
    ensures Format(Send) == "2(Send)"
    ensures Format(Receive) == "4(Receive)"
    ensures Format(0) == "0()"
  {
    assert IntToDecimal(1) == "1" && Names(1) == ["Active"];
    LabelOf(1, "1", ["Active"]);
    assert IntToDecimal(2) == "2" && Names(2) == ["Send"];
    LabelOf(2, "2", ["Send"]);
    assert IntToDecimal(4) == "4" && Names(4) == ["Receive"];
    LabelOf(4, "4", ["Receive"]);
  }

  /** `Active|Send`, the first value the demonstration program prints; as the
      bits are disjoint, `|` of them is their sum. */
  lemma ActiveSendLabel()
    ensures Format(Active + Send) == "3(Active|Send)"
  {
    assert IntToDecimal(3) == "3" && Names(3) == ["Active", "Send"];
    LabelOf(3, "3", ["Active", "Send"]);
    assert Join(["Active", "Send"], '|') == "Active|Send";
  }

  lemma ActiveReceiveLabel()
    ensures Format(Active + Receive) == "5(Active|Receive)"
  {
    assert IntToDecimal(5) == "5" && Names(5) == ["Active", "Receive"];
    LabelOf(5, "5", ["Active", "Receive"]);
    assert Join(["Active", "Receive"], '|') == "Active|Receive";
  }

  /** The three names joined by `|`. */
  lemma AllNamesJoined()
    ensures Join(["Active", "Send", "Receive"], '|') == "Active|Send|Receive"
  {
    assert Join(["Send", "Receive"], '|') == "Send|Receive";
  }

  /** `Active|Receive|Send`: the names follow declaration order, not the
      order of the operands. */
  lemma AllFlagsLabel()
    ensures Format(Active + Receive + Send) == "7(Active|Send|Receive)"
  {
    assert IntToDecimal(7) == "7" && Names(7) == ["Active", "Send", "Receive"];
    LabelOf(7, "7", ["Active", "Send", "Receive"]);
    AllNamesJoined();
  }

  /** An unnamed bit alone falls to the `0()` literal: 8 is not `8()`. */
  lemma UnnamedBitLabel()
    ensures Format(8) == "0()"
  {
    assert Names(8) == [];
  }

  /** An unnamed bit shows in the number but not in the names. */
  lemma MixedBitsLabel()
    ensures Format(9) == "9(Active)"
  {
    assert IntToDecimal(9) == "9" && Names(9) == ["Active"];
    LabelOf(9, "9", ["Active"]);
  }

  /** All 64 bits set is the Go int -1, which has every named bit. */
  lemma NegativeLabel()
    ensures Format(-1) == "-1(Active|Send|Receive)"
  {
    assert IntToDecimal(-1) == "-1" && Names(-1) == ["Active", "Send", "Receive"];
    LabelOf(-1, "-1", ["Active", "Send", "Receive"]);
    AllNamesJoined();
  }
}
