/** The abstract YAML document the converter hands to `yaml.dump`, and the
    string-quoting rule it registers for every string scalar. The byte-level
    serialisation itself is not modelled. */
module Yaml {
  import opened Wrappers
  import opened Text

  /** A YAML node. Mappings keep their insertion order, as the converter
      dumps with `sort_keys=False`. */
  datatype Value =
    | Null
    | Bool(b: bool)
    | Int(i: int)
    | Str(s: string)
    | List(items: seq<Value>)
    | Map(entries: seq<(Value, Value)>)

  /** A Python string that may be `None`. */
  function Scalar(t: Option<string>): Value {
    match t
    case None => Null
    case Some(s) => Str(s)
  }

  function Strs(ss: seq<string>): (r: seq<Value>)
    ensures |r| == |ss|
    ensures forall i :: 0 <= i < |ss| ==> r[i] == Str(ss[i])
  {
    seq(|ss|, i requires 0 <= i < |ss| => Str(ss[i]))
  }

  function StrPairs(m: seq<(string, string)>): (r: seq<(Value, Value)>)
    ensures |r| == |m|
    ensures forall i :: 0 <= i < |m| ==> r[i] == (Str(m[i].0), Str(m[i].1))
  {
    seq(|m|, i requires 0 <= i < |m| => (Str(m[i].0), Str(m[i].1)))
  }

  /** How a string scalar is emitted: forced into double quotes, or left to
      the dumper's default choice. */
  datatype ScalarStyle = DoubleQuoted | DefaultStyle

  /** The characters that force double quotes. */
  const QuoteTriggers: string := "\n:{}[]"

  /** The registered representer for `str`: six substring tests. */
  function StyleOf(s: string): (st: ScalarStyle)
    ensures st == DoubleQuoted <==> exists i :: 0 <= i < |s| && s[i] in QuoteTriggers
  {
    ContainsChar(s, '\n');
    ContainsChar(s, ':');
    ContainsChar(s, '{');
    ContainsChar(s, '}');
    ContainsChar(s, '[');
    ContainsChar(s, ']');
    if Contains(s, "\n") || Contains(s, ":") || Contains(s, "{") || Contains(s, "}")
       || Contains(s, "[") || Contains(s, "]")
    then DoubleQuoted
    else DefaultStyle
  }
}
