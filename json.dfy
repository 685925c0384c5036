/**
 * Decoded JSON (or XML turned into dictionaries) as the analyser receives it
 * from `json.loads` and `xmltodict.parse`, with the Python readings of a
 * value the analyser relies on: truthiness, `str()` and `float()`.
 */
module Json {
  import opened Wrappers
  import opened Text

  datatype Json =
    | JNull
    | JBool(b: bool)
    | JInt(i: int)
    | JFloat(x: real)
    | JStr(s: string)
    | JList(elems: seq<Json>)
    | JObj(fields: map<string, Json>)

  /** Python truthiness: `None`, `False`, zero and empty containers are false. */
  predicate Truthy(j: Json) {
    match j
    case JNull => false
    case JBool(b) => b
    case JInt(i) => i != 0
    case JFloat(x) => x != 0.0
    case JStr(s) => s != []
    case JList(l) => l != []
    case JObj(m) => m != map[]
  }

  /** `d.get(key, default)` on a dictionary. */
  function Field(m: map<string, Json>, key: string, default: Json): (v: Json)
    ensures key in m ==> v == m[key]
    ensures key !in m ==> v == default
  {
    if key in m then m[key] else default
  }

  /**
   * Python's `str(v)`. Strings, `None`, booleans and integers are written as
   * Python writes them; a float, list or dictionary gets a fixed non-blank
   * stand-in (see the README), which keeps the one property the analyser
   * uses of them: their text is never blank.
   */
  function PyStr(j: Json): (s: string)
    ensures !j.JStr? ==> s != [] && !IsSpace(s[0])
  {
    match j
    case JNull => "None"
    case JBool(b) => if b then "True" else "False"
    case JInt(i) => IntText(i)
    case JFloat(_) => "<float>"
    case JStr(t) => t
    case JList(_) => "[...]"
    case JObj(_) => "{...}"
  }

  /**
   * The number `float(v)`, `astype(float)` or `pandas.to_numeric` reads from
   * a value, or `None` where they fail (Python raises, pandas coerces to NaN).
   * Text is read after stripping its whitespace.
   */
  function ToNumber(j: Json): (r: Option<real>)
    ensures j.JInt? ==> r == Some(j.i as real)
    ensures j.JFloat? ==> r == Some(j.x)
    ensures (j.JNull? || j.JList? || j.JObj?) ==> r == None
  {
    match j
    case JInt(i) => Some(i as real)
    case JFloat(x) => Some(x)
    case JBool(b) => Some(if b then 1.0 else 0.0)
    case JStr(s) => ParseDecimal(Strip(s))
    case _ => None
  }

  /** An integer written as text reads back as that integer. */
  lemma ToNumberOfIntText(i: int)
    ensures ToNumber(JStr(IntText(i))) == Some(i as real)
  {
    var t := IntText(i);
    IntTextStripped(i);
    StripOfStripped(t);
    ParseIntText(i);
  }

  lemma IntTextStripped(i: int)
    ensures IsStripped(IntText(i))
  {
    var n: nat := if i < 0 then -i else i;
    var t := NatText(n);
    assert IsDigit(t[0]) && IsDigit(t[|t| - 1]);
    if i < 0 {
      assert IntText(i)[|IntText(i)| - 1] == t[|t| - 1];
    }
  }
}
