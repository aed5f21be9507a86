/** The encoder (`src/jso_encoder.c`).  Its output is a string; writing to it cannot fail. */
module Encoders {
  import opened Options
  import opened JsonValues
  import opened NumberTexts
  import opened JsonTexts
  import TextLayouts

  class Encoder {
    const pretty: bool
    var output: string
    var depth: nat

    constructor (pretty: bool)
      ensures this.pretty == pretty && output == "" && depth == 0
    {
      this.pretty, output, depth := pretty, "", 0;
    }

    method Output(s: string)
      modifies this`output
      ensures output == old(output) + s
    {
      output := output + s;
    }

    method PrettyPrintIndent()
      modifies this`output
      ensures output == old(output) + if pretty then Indent(depth) else ""
    {
      if !pretty {
        return;
      }
      ghost var start := output;
      var i := depth;
      while i > 0
        invariant 0 <= i <= depth && output + Indent(i) == start + Indent(depth)
      {
        Assoc(output, INDENT, Indent(i - 1));
        Output(INDENT);
        i := i - 1;
      }
    }

    method PrettyPrintElementSep()
      modifies this`output
      ensures output == old(output) + ElementSep(pretty, depth)
    {
      if !pretty {
        return;
      }
      Assoc(output, "\n", Indent(depth));
      Output("\n");
      PrettyPrintIndent();
    }

    method PrettyPrintKeySep()
      modifies this`output
      ensures output == old(output) + KeySep(pretty)
    {
      if pretty {
        Output(" ");
      }
    }

    method EncodeString(s: string)
      modifies this`output
      ensures output == old(output) + StringText(s)
    {
      ghost var start := output;
      Output("\"");
      var pos := 0;
      while pos < |s|
        invariant 0 <= pos <= |s|
        invariant output + Escaped(s[pos..]) == start + "\"" + Escaped(s)
      {
        assert s[pos..][1..] == s[pos + 1..];
        Assoc(output, EscapeChar(s[pos]), Escaped(s[pos + 1..]));
        EncodeChar(s[pos]);
        pos := pos + 1;
      }
      Assoc(start, "\"", Escaped(s));
      Assoc(start, "\"" + Escaped(s), "\"");
      Output("\"");
    }

    method EncodeChar(c: char)
      modifies this`output
      ensures output == old(output) + EscapeChar(c)
    {
      match c {
        case '"' => Output("\\\"");
        case '\\' => Output("\\\\");
        case '/' => Output("\\/");
        case '\U{0008}' => Output("\\b");
        case '\U{000C}' => Output("\\f");
        case '\n' => Output("\\n");
        case '\r' => Output("\\r");
        case '\t' => Output("\\t");
        case _ => Output([c]);
      }
    }

    method EncodeArray(v: Json)
      requires v.Array? && Encodable(v)
      modifies this
      ensures output == old(output) + Text(v, pretty, old(depth)) && depth == old(depth)
      decreases v, 0
    {
      hide Text, ItemsText, ElementSep, Encodable;
      ghost var start := output;
      var isFirst := true;
      Output("[");
      depth := depth + 1;
      var k := 0;
      while k < |v.items|
        invariant 0 <= k <= |v.items| && depth == old(depth) + 1 && isFirst == (k == 0)
        invariant output + ItemsText(v, k, pretty, depth) == start + "[" + ItemsText(v, 0, pretty, depth)
      {
        ItemsUnfold(v, k, pretty, depth, output);
        if isFirst {
          isFirst := false;
        } else {
          Output(",");
        }
        PrettyPrintElementSep();
        Encode(v.items[k]);
        k := k + 1;
      }
      ArrayUnfold(v, pretty, depth - 1, start);
      depth := depth - 1;
      if !isFirst {
        PrettyPrintElementSep();
      }
      Output("]");
    }

    method EncodeObject(v: Json)
      requires v.Object? && Encodable(v)
      modifies this
      ensures output == old(output) + Text(v, pretty, old(depth)) && depth == old(depth)
      decreases v, 0
    {
      hide Text, MembersText, ElementSep, Encodable, StringText, KeySep;
      ghost var start := output;
      var isFirst := true;
      Output("{");
      depth := depth + 1;
      var k := 0;
      while k < |v.members|
        invariant 0 <= k <= |v.members| && depth == old(depth) + 1 && isFirst == (k == 0)
        invariant output + MembersText(v, k, pretty, depth) == start + "{" + MembersText(v, 0, pretty, depth)
      {
        ghost var before := output;
        MembersUnfold(v, k, pretty, depth, before);
        if isFirst {
          isFirst := false;
        } else {
          Output(",");
        }
        assert output == before + Comma(k);
        PrettyPrintElementSep();
        EncodeString(v.members[k].key);
        Output(":");
        PrettyPrintKeySep();
        Encode(v.members[k].value);
        k := k + 1;
      }
      ObjectUnfold(v, pretty, depth - 1, start);
      depth := depth - 1;
      if !isFirst {
        PrettyPrintElementSep();
      }
      Output("}");
    }

    method Encode(v: Json)
      requires Encodable(v)
      modifies this
      ensures output == old(output) + Text(v, pretty, old(depth)) && depth == old(depth)
      decreases v, 1
    {
      hide ItemsText, MembersText, StringText, IntText;
      match v {
        case Null => Output("null");
        case Bool(b) => Output(if b then "true" else "false");
        case Int(i) =>
          var text := EncodeInt(i);
          Output(text);
        case String(s) => EncodeString(s);
        case Array(_) => EncodeArray(v);
        case Object(_) => EncodeObject(v);
      }
    }
  }

  lemma ItemsUnfold(v: Json, k: nat, pretty: bool, depth: nat, output: string)
    requires v.Array? && Encodable(v) && k < |v.items|
    ensures Encodable(v.items[k])
    ensures output + ItemsText(v, k, pretty, depth)
         == output + Comma(k) + ElementSep(pretty, depth) + Text(v.items[k], pretty, depth)
           + ItemsText(v, k + 1, pretty, depth)
  {
    var c, s, t, more := Comma(k), ElementSep(pretty, depth), Text(v.items[k], pretty, depth),
      ItemsText(v, k + 1, pretty, depth);
    assert ItemsText(v, k, pretty, depth) == c + s + t + more;
    hide *;
    Assoc(output, c, s);
    Assoc(output, c + s, t);
    Assoc(output, c + s + t, more);
  }

  lemma ArrayUnfold(v: Json, pretty: bool, depth: nat, start: string)
    requires v.Array? && Encodable(v)
    ensures ItemsText(v, |v.items|, pretty, depth + 1) == ""
    ensures start + Text(v, pretty, depth)
         == start + "[" + ItemsText(v, 0, pretty, depth + 1)
           + (if v.items == [] then "" else ElementSep(pretty, depth)) + "]"
  {
    var s, e := ItemsText(v, 0, pretty, depth + 1), if v.items == [] then "" else ElementSep(pretty, depth);
    assert Text(v, pretty, depth) == "[" + s + e + "]";
    hide *;
    Assoc(start, "[", s);
    Assoc(start, "[" + s, e);
    Assoc(start, "[" + s + e, "]");
  }

  lemma MembersUnfold(v: Json, k: nat, pretty: bool, depth: nat, output: string)
    requires v.Object? && Encodable(v) && k < |v.members|
    ensures Encodable(v.members[k].value)
    ensures output + MembersText(v, k, pretty, depth)
         == output + Comma(k) + ElementSep(pretty, depth) + StringText(v.members[k].key) + ":" + KeySep(pretty)
            + Text(v.members[k].value, pretty, depth) + MembersText(v, k + 1, pretty, depth)
  {
    var c, s, key, ks := Comma(k), ElementSep(pretty, depth), StringText(v.members[k].key), KeySep(pretty);
    var t, more := Text(v.members[k].value, pretty, depth), MembersText(v, k + 1, pretty, depth);
    assert MembersText(v, k, pretty, depth) == c + s + key + ":" + ks + t + more;
    hide *;
    Assoc(output, c, s);
    Assoc(output, c + s, key);
    Assoc(output, c + s + key, ":");
    Assoc(output, c + s + key + ":", ks);
    Assoc(output, c + s + key + ":" + ks, t);
    Assoc(output, c + s + key + ":" + ks + t, more);
  }

  lemma ObjectUnfold(v: Json, pretty: bool, depth: nat, start: string)
    requires v.Object? && Encodable(v)
    ensures MembersText(v, |v.members|, pretty, depth + 1) == ""
    ensures start + Text(v, pretty, depth)
         == start + "{" + MembersText(v, 0, pretty, depth + 1)
           + (if v.members == [] then "" else ElementSep(pretty, depth)) + "}"
  {
    var s, e := MembersText(v, 0, pretty, depth + 1), if v.members == [] then "" else ElementSep(pretty, depth);
    assert Text(v, pretty, depth) == "{" + s + e + "}";
    hide *;
    Assoc(start, "{", s);
    Assoc(start, "{" + s, e);
    Assoc(start, "{" + s + e, "}");
  }

  /** Encodes one document; a reader recovers it from the output. */
  method EncodeWhole(v: Json, pretty: bool) returns (output: string)
    requires Encodable(v)
    ensures output == Text(v, pretty, 0)
    ensures ReadValue(output) == Ok(v, "")
    ensures Squeeze(Outside, output) == Text(v, false, 0)
    ensures pretty ==> output == TextLayouts.LayOut(TextLayouts.Spot(Outside, 0, false), Text(v, false, 0))
  {
    TextLayouts.PrettyMeans(v);
    hide Text, ReadValue, Encodable, TextLayouts.LayOut;
    var encoder := new Encoder(pretty);
    encoder.Encode(v);
    output := encoder.output;
    assert "" + Text(v, pretty, 0) == Text(v, pretty, 0);
    ReadWhole(v, pretty);
    PrettySqueezes(v, pretty, 0, 0);
  }
}
