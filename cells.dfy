/**
  Cells of a worksheet: the raw value a cell holds, its fill, and the
  resolved value every comparison and display goes through (`getCellValue`).
 */
module Cells {
  import opened Wrappers
  import opened JsValues

  /** What `getCellValue` can hand back. */
  datatype Resolved =
    | Text(s: string)
    | Number(n: int)
    | Null
      /** A formula object whose `result` is undefined, returned as it is. */
    | FormulaObject(formula: string)

  /** A cell's raw value; `Empty` stands for both `null` and `undefined`. */
  datatype CellValue =
    | Empty
    | Str(s: string)
    | Num(n: int)
    | RichText(fragments: seq<string>)
      /** `result` is `None` when the formula has no cached result. */
    | Formula(formula: string, result: Option<Resolved>)

  /** The foreground colour of a fill; `argb` is `""` when it is unset. */
  datatype Color = Color(argb: string)

  datatype Fill = Fill(pattern: string, fgColor: Option<Color>)

  datatype Cell = Cell(value: CellValue, fill: Option<Fill>)

  /** The cell `getCell` hands back for a position nothing was written to. */
  const BlankCell := Cell(Empty, None)

  /** The rich-text fragments' text joined in order, with no separator. */
  function Join(fragments: seq<string>): (r: string) {
    if fragments == [] then "" else fragments[0] + Join(fragments[1..])
  }

  /**
    `getCellValue`: rich text becomes its joined text, a formula its cached
    result (the formula object itself when there is none), nothing at all
    the empty text, and strings and numbers themselves.
   */
  function Resolve(v: CellValue): (r: Resolved)
    ensures v.Formula? && v.result.Some? ==> r == v.result.value
    ensures !v.Formula? ==> r.Text? || r.Number?
    ensures v.Str? ==> r == Text(v.s)
    ensures v.Num? ==> r == Number(v.n)
  {
    match v
    case Empty => Text("")
    case RichText(fragments) => Text(Join(fragments))
    case Formula(formula, result) =>
      if result.Some? then result.value else FormulaObject(formula)
    case Str(s) => Text(s)
    case Num(n) => Number(n)
  }

  /** The test `value === '' || value === null || value === undefined`. */
  predicate IsBlank(r: Resolved) {
    r == Text("") || r == Null
  }

  /** JavaScript truthiness of a resolved value. */
  predicate Truthy(r: Resolved) {
    match r
    case Text(s) => s != ""
    case Number(n) => n != 0
    case Null => false
    case FormulaObject(_) => true
  }

  /** `String(r)` / `r.toString()`. */
  function ToJsString(r: Resolved): string {
    match r
    case Text(s) => s
    case Number(n) => IntToString(n)
    case Null => "null"
    case FormulaObject(_) => "[object Object]"
  }

  /** Joining distributes over concatenation of fragment lists. */
  lemma {:induction false} JoinAppend(a: seq<string>, b: seq<string>)
    ensures Join(a + b) == Join(a) + Join(b)
    decreases |a|
  {
    if a == [] {
      assert a + b == b;
    } else {
      JoinAppend(a[1..], b);
      assert (a + b)[0] == a[0] && (a + b)[1..] == a[1..] + b;
    }
  }

  /**
    Joining keeps every fragment, in order: fragment `i` sits in the joined
    text right after the text of the fragments before it.
   */
  lemma {:induction false} JoinKeepsFragment(fragments: seq<string>, i: int)
    requires 0 <= i < |fragments|
    ensures Join(fragments) == Join(fragments[..i]) + fragments[i] + Join(fragments[i + 1..])
  {
    var front, back := fragments[..i + 1], fragments[i + 1..];
    assert fragments == front + back;
    JoinAppend(front, back);
    assert front == fragments[..i] + [fragments[i]];
    JoinAppend(fragments[..i], [fragments[i]]);
    assert Join([fragments[i]]) == fragments[i] by {
      assert [fragments[i]][1..] == [];
    }
  }

  /** The joined text is empty exactly when every fragment is. */
  lemma {:induction false} JoinEmpty(fragments: seq<string>)
    ensures Join(fragments) == "" <==> forall i :: 0 <= i < |fragments| ==> fragments[i] == ""
    decreases |fragments|
  {
    if fragments != [] {
      JoinEmpty(fragments[1..]);
      assert forall i :: 1 <= i < |fragments| ==> fragments[i] == fragments[1..][i - 1];
    }
  }

  /**
    Which raw values the resolver maps to an empty value: nothing written,
    an empty string, rich text made of empty fragments, and a formula whose
    cached result is itself empty. A number, even zero, is never empty.
   */
  lemma ResolveBlank(v: CellValue)
    ensures IsBlank(Resolve(v)) <==>
      || v.Empty?
      || v == Str("")
      || (v.RichText? && forall i :: 0 <= i < |v.fragments| ==> v.fragments[i] == "")
      || (v.Formula? && v.result.Some? && IsBlank(v.result.value))
  {
    if v.RichText? {
      JoinEmpty(v.fragments);
    }
  }
}
