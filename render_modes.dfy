/** `RenderModes` (src/types/RenderModes.ts): the closed set of frontends, their
    labels, and the numeric members the enum object exposes. */
module RenderModes {
  import opened Cells

  /** A numeric enum: Canvas = 0, LitElement = 1, React = 2, Vue = 3. */
  datatype RenderMode = Canvas | LitElement | React | Vue

  function Ordinal(mode: RenderMode): nat
  {
    match mode
    case Canvas => 0
    case LitElement => 1
    case React => 2
    case Vue => 3
  }

  function FromOrdinal(n: int): (mode: Option<RenderMode>)
    ensures mode.Some? <==> 0 <= n < 4
    ensures mode.Some? ==> Ordinal(mode.value) == n
  {
    if n == 0 then Some(Canvas)
    else if n == 1 then Some(LitElement)
    else if n == 2 then Some(React)
    else if n == 3 then Some(Vue)
    else None
  }

  /** `mapToLabel`: the switch covers every variant, so no default is needed. */
  function MapToLabel(mode: RenderMode): string
  {
    match mode
    case Canvas => "Canvas"
    case LitElement => "lit-element"
    case React => "React"
    case Vue => "Vue"
  }

  /** The renderer class `mapToRenderer` instantiates for each mode. */
  datatype RendererKind = CanvasLifeRenderer | LitElementLifeRenderer | ReactLifeRenderer | VueLifeRenderer

  function MapToRenderer(mode: RenderMode): RendererKind
  {
    match mode
    case Canvas => CanvasLifeRenderer
    case LitElement => LitElementLifeRenderer
    case React => ReactLifeRenderer
    case Vue => VueLifeRenderer
  }

  /** Different modes have different labels, so a label names its mode. */
  lemma MapToLabelInjective(a: RenderMode, b: RenderMode)
    ensures MapToLabel(a) == MapToLabel(b) ==> a == b
  {
  }

  /** Every renderer class is reached from exactly one mode. */
  lemma MapToRendererBijective(kind: RendererKind)
    ensures exists mode :: MapToRenderer(mode) == kind
    ensures forall a, b :: MapToRenderer(a) == MapToRenderer(b) ==> a == b
  {
    var mode := match kind
      case CanvasLifeRenderer => Canvas
      case LitElementLifeRenderer => LitElement
      case ReactLifeRenderer => React
      case VueLifeRenderer => Vue;
    assert MapToRenderer(mode) == kind;
  }

  // ---------------------------------------------------------------------------
  // asArray

  /** `Object.keys(RenderModes)`: a numeric enum object holds the reverse
      mapping under the keys "0" to "3" (integer-like keys come first, in
      ascending order), then the member names, then the functions the
      namespace merges into it. */
  const EnumKeys: seq<string> := IndexKeys + NameKeys

  const IndexKeys: seq<string> := ["0", "1", "2", "3"]
  const NameKeys: seq<string> := ["Canvas", "LitElement", "React", "Vue", "asArray", "mapToLabel", "mapToRenderer"]

  predicate IsDigit(c: char)
  {
    '0' <= c <= '9'
  }

  /** The length of the run of decimal digits at the start of `s`. */
  function DigitPrefix(s: string): (k: nat)
    ensures k <= |s|
    ensures forall i :: 0 <= i < k ==> IsDigit(s[i])
    ensures k < |s| ==> !IsDigit(s[k])
  {
    if s != [] && IsDigit(s[0]) then 1 + DigitPrefix(s[1..]) else 0
  }

  function DigitValue(c: char): nat
    requires IsDigit(c)
  {
    c as int - '0' as int
  }

  function DigitsValue(digits: string): nat
    requires forall i :: 0 <= i < |digits| ==> IsDigit(digits[i])
  {
    if digits == [] then 0
    else 10 * DigitsValue(digits[..|digits| - 1]) + DigitValue(digits[|digits| - 1])
  }

  /** `parseInt(key, 10)` on a key without leading blanks or sign: the value of
      its leading digits, or NaN (None) when it does not start with one. */
  function ParseInt(s: string): (r: Option<int>)
    ensures r.Some? <==> s != [] && IsDigit(s[0])
  {
    var k := DigitPrefix(s);
    if k == 0 then None else Some(DigitsValue(s[..k]))
  }

  /** `.map(parseInt).filter(Number.isInteger)`: the keys that parse, in order. */
  function IntegerKeys(keys: seq<string>): (values: seq<int>)
    ensures |values| <= |keys|
  {
    if keys == [] then []
    else match ParseInt(keys[0])
      case Some(v) => [v] + IntegerKeys(keys[1..])
      case None => IntegerKeys(keys[1..])
  }

  function AsArray(): seq<int>
  {
    IntegerKeys(EnumKeys)
  }

  lemma SingleDigit(s: string)
    requires |s| == 1 && IsDigit(s[0])
    ensures ParseInt(s) == Some(DigitValue(s[0]))
  {
    assert DigitPrefix(s) == 1 by {
      assert DigitPrefix(s[1..]) == 0;
    }
    assert s[..1] == s;
    assert s[..|s| - 1] == [];
    assert DigitsValue(s) == 10 * DigitsValue([]) + DigitValue(s[0]);
  }

  lemma {:induction false} IntegerKeysAppend(front: seq<string>, back: seq<string>)
    ensures IntegerKeys(front + back) == IntegerKeys(front) + IntegerKeys(back)
  {
    if front == [] {
      assert front + back == back;
    } else {
      var all := front + back;
      assert all[0] == front[0] && all[1..] == front[1..] + back;
      IntegerKeysAppend(front[1..], back);
      match ParseInt(front[0])
      case Some(v) =>
        assert IntegerKeys(all) == [v] + IntegerKeys(all[1..]);
        assert IntegerKeys(front) == [v] + IntegerKeys(front[1..]);
      case None =>
    }
  }

  lemma IndexKeysParse()
    ensures IntegerKeys(IndexKeys) == [0, 1, 2, 3]
  {
    SingleDigit("0");
    SingleDigit("1");
    SingleDigit("2");
    SingleDigit("3");
    assert IndexKeys == ["0", "1"] + ["2", "3"];
    IntegerKeysAppend(["0", "1"], ["2", "3"]);
    assert ["0", "1"] == ["0"] + ["1"];
    IntegerKeysAppend(["0"], ["1"]);
    assert ["2", "3"] == ["2"] + ["3"];
    IntegerKeysAppend(["2"], ["3"]);
  }

  lemma NameKeysDropped()
    ensures IntegerKeys(NameKeys) == []
  {
    forall i | 0 <= i < |NameKeys| ensures ParseInt(NameKeys[i]).None? {
      assert !IsDigit(NameKeys[i][0]);
    }
    NoDigitKeys(NameKeys);
  }

  /** `asArray` yields the four numeric members in declaration order and drops
      every name key, so it lists each mode's ordinal exactly once. */
  lemma AsArrayIsOrdinals()
    ensures AsArray() == [0, 1, 2, 3]
    ensures forall mode :: 0 <= Ordinal(mode) < |AsArray()| && AsArray()[Ordinal(mode)] == Ordinal(mode)
  {
    IntegerKeysAppend(IndexKeys, NameKeys);
    IndexKeysParse();
    NameKeysDropped();
  }

  lemma {:induction false} NoDigitKeys(keys: seq<string>)
    requires forall i :: 0 <= i < |keys| ==> ParseInt(keys[i]).None?
    ensures IntegerKeys(keys) == []
  {
    if keys != [] {
      NoDigitKeys(keys[1..]);
    }
  }
}
