/**
 The text form of a reg entry: printed by scripts/collect_quick.py, parsed by
 scripts/ane_soc_from_collect.py.
 */
module RegText {
  import opened Positional
  import opened Wrappers

  datatype Entry = Entry(addr: nat, size: nat)

  /** f"0x{addr:x}/0x{size:x}". */
  function Format(e: Entry): string {
    "0x" + Hex(e.addr) + "/0x" + Hex(e.size)
  }

  /** The first slash at or after `from`, else the end. */
  function SlashAt(s: string, from: nat): (k: nat)
    requires from <= |s|
    ensures from <= k <= |s|
    ensures forall i :: from <= i < k ==> s[i] != '/'
    ensures k < |s| ==> s[k] == '/'
    decreases |s| - from
  {
    if from == |s| || s[from] == '/' then from else SlashAt(s, from + 1)
  }

  /** int(s, 0) of a hexadecimal literal: 0x or 0X and one digit or more, of either case. */
  function ParseInt(s: string): Option<nat> {
    if |s| > 2 && s[0] == '0' && (s[1] == 'x' || s[1] == 'X') && AllHex(s[2..]) then Some(HexValue(s[2..])) else None
  }

  /** Exactly what is read as a literal, and the number it writes. */
  lemma LiteralIff(s: string, v: nat)
    ensures ParseInt(s) == Some(v) <==>
            exists digits :: digits != "" && (s == "0x" + digits || s == "0X" + digits) && AllHex(digits)
                             && HexValue(digits) == v
  {
    if ParseInt(s) == Some(v) {
      assert s == [s[0], s[1]] + s[2..];
    }
    if digits :| digits != "" && (s == "0x" + digits || s == "0X" + digits) && AllHex(digits) && HexValue(digits) == v {
      assert s[2..] == digits;
    }
  }

  /** ane_soc_from_collect.py:44-46. */
  function ParseReg(s: string): Option<Entry> {
    var k := SlashAt(s, 0);
    if k == |s| then None
    else
      match (ParseInt(s[..k]), ParseInt(s[k + 1..]))
      case (Some(a), Some(b)) => Some(Entry(a, b))
      case _ => None
  }

  /** One program's output is the other's input. */
  lemma ParseFormat(e: Entry)
    ensures ParseReg(Format(e)) == Some(e)
  {
    var a, b := "0x" + Hex(e.addr), "0x" + Hex(e.size);
    HexReadsBack(e.addr);
    HexReadsBack(e.size);
    var s := Format(e);
    assert s == a + "/" + b;
    assert forall i :: 0 <= i < |a| ==> s[i] == a[i] && a[i] != '/';
    assert s[|a|] == '/';
    assert SlashAt(s, 0) == |a|;
    assert s[..|a|] == a && s[|a| + 1..] == b;
    assert a[2..] == Hex(e.addr) && b[2..] == Hex(e.size);
  }
}
