/**
 * The literal classifier of lexer.py (`get_var_type`): the text of a declared
 * value decides the C++ type keyword of the declaration.
 */
module VarTypes {
  import opened Text

  /** The seven type tags. */
  datatype VarType = Int | Float | Str | Bool | List | SetOf | Auto

  /** The C++ keyword written for each tag. */
  function TypeName(t: VarType): string {
    match t
    case Int => "int"
    case Float => "float"
    case Str => "string"
    case Bool => "bool"
    case List => "list"
    case SetOf => "set"
    case Auto => "auto"
  }

  /** `t.startswith(open) and t.endswith(close)`; one character can be both ends. */
  predicate Delimited(t: string, open: char, close: char) {
    |t| >= 1 && t[0] == open && t[|t| - 1] == close
  }

  /** Digits only, at least one. */
  predicate IsIntLit(v: string) {
    v != [] && AllDigits(v)
  }

  /** Digits, a dot, digits: leading digits are all consumed before the dot is looked for. */
  predicate IsFloatLit(v: string)
    ensures IsFloatLit(v) <==> exists i :: 0 < i < |v| - 1 && v[i] == '.' && IsIntLit(v[..i]) && IsIntLit(v[i + 1..])
  {
    var i := DigitRunEnd(v, 0);
    var ok := 0 < i && i + 1 < |v| && v[i] == '.' && DigitRunEnd(v, i + 1) == |v|;
    assert ok ==> v[i] == '.' && IsIntLit(v[..i]) && IsIntLit(v[i + 1..]);
    assert forall j :: 0 < j < |v| - 1 && v[j] == '.' && IsIntLit(v[..j]) && IsIntLit(v[j + 1..]) ==> ok by {
      forall j | 0 < j < |v| - 1 && v[j] == '.' && IsIntLit(v[..j]) && IsIntLit(v[j + 1..])
        ensures ok
      {
        assert forall k :: 0 <= k < j ==> IsDigit(v[..j][k]);
        assert i == j;
      }
    }
    ok
  }

  /** A single-quoted literal gets double quotes instead; everything else is kept. */
  function Requote(t: string): (r: string)
    ensures Delimited(t, '\'', '\'') ==> Delimited(r, '"', '"') && |r| == if |t| == 1 then 2 else |t|
    ensures Delimited(t, '\'', '\'') && |t| >= 2 ==> r[1..|r| - 1] == t[1..|t| - 1]
    ensures !Delimited(t, '\'', '\'') ==> r == t
  {
    if Delimited(t, '\'', '\'') then "\"" + (if |t| >= 2 then t[1..|t| - 1] else []) + "\"" else t
  }

  /**
   * `get_var_type`: the tags are tried in the order int, float, string,
   * bool, list, set, and the first that fits wins; the shapes are mutually
   * exclusive, so each tag holds exactly when its own shape does.
   */
  function GetVarType(value: string): (r: (VarType, string))
    ensures r.1 == Requote(Strip(value))
    ensures r.0 == Int <==> IsIntLit(r.1)
    ensures r.0 == Float <==> IsFloatLit(r.1)
    ensures r.0 == Str <==> Delimited(r.1, '"', '"')
    ensures r.0 == Bool <==> r.1 == "true" || r.1 == "false"
    ensures r.0 == List <==> Delimited(r.1, '[', ']')
    ensures r.0 == SetOf <==> Delimited(r.1, '{', '}')
    ensures r.0 == Auto <==>
      (!IsIntLit(r.1) && !IsFloatLit(r.1) && !Delimited(r.1, '"', '"') &&
       r.1 != "true" && r.1 != "false" && !Delimited(r.1, '[', ']') && !Delimited(r.1, '{', '}'))
  {
    var v := Requote(Strip(value));
    assert IsFloatLit(v) ==> IsDigit(v[0]) && '.' in v;
    if IsIntLit(v) then (Int, v)
    else if IsFloatLit(v) then (Float, v)
    else if Delimited(v, '"', '"') then (Str, v)
    else if v == "true" || v == "false" then (Bool, v)
    else if Delimited(v, '[', ']') then (List, v)
    else if Delimited(v, '{', '}') then (SetOf, v)
    else (Auto, v)
  }

  /** A literal without surrounding whitespace is classified as it stands. */
  lemma {:induction false} ClassifyTrimmed(v: string)
    requires Trimmed(v)
    ensures GetVarType(v).1 == Requote(v)
  {
    StripTrimmed(v);
  }

  /** Digits are an int, value unchanged. */
  lemma IntLaw(d: string)
    requires IsIntLit(d)
    ensures GetVarType(d) == (Int, d)
  {
    ClassifyTrimmed(d);
  }

  /** Digits, a dot and digits are a float, value unchanged. */
  lemma FloatLaw(a: string, b: string)
    requires IsIntLit(a) && IsIntLit(b)
    ensures GetVarType(a + "." + b) == (Float, a + "." + b)
  {
    var v := a + "." + b;
    assert v[..|a|] == a && v[|a| + 1..] == b;
    ClassifyTrimmed(v);
  }

  /** A double-quoted literal is a string, value unchanged. */
  lemma DoubleQuotedLaw(x: string)
    ensures GetVarType("\"" + x + "\"") == (Str, "\"" + x + "\"")
  {
    ClassifyTrimmed("\"" + x + "\"");
  }

  /** A single-quoted literal is a string whose quotes become double quotes. */
  lemma SingleQuotedLaw(x: string)
    ensures GetVarType("'" + x + "'") == (Str, "\"" + x + "\"")
  {
    var t := "'" + x + "'";
    ClassifyTrimmed(t);
    assert t[1..|t| - 1] == x;
  }

  /** `true` and `false` are bools. */
  lemma BoolLaw(b: string)
    requires b == "true" || b == "false"
    ensures GetVarType(b) == (Bool, b)
  {
    ClassifyTrimmed(b);
  }

  /** Bracketed text is a list and braced text a set, passed through unparsed. */
  lemma CollectionLaw(x: string)
    ensures GetVarType("[" + x + "]") == (List, "[" + x + "]")
    ensures GetVarType("{" + x + "}") == (SetOf, "{" + x + "}")
  {
    ClassifyTrimmed("[" + x + "]");
    ClassifyTrimmed("{" + x + "}");
  }

  /** Surrounding whitespace never changes the classification. */
  lemma StripInvariant(value: string)
    ensures GetVarType(Strip(value)) == GetVarType(value)
  {
    StripIdempotent(value);
  }
}
