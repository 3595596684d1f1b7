/**
 The canonical text of a send request, whose hash is the request fingerprint.

 `RequestText` is a function of the request as a value: the map of variables has no
 order. `CanonicalRequestJson` builds the same text with loops over keys taken from
 the map in any order.
 */
module RequestForm {
  import opened Wrappers
  import opened Decimal
  import opened JsonNumber
  import opened CanonicalNumber
  import opened JsonString
  import opened TextOrder

  /** A decoded template variable. A number keeps its source text. */
  datatype Value = TextValue(text: string) | BoolValue(flag: bool) | NumberValue(source: string)

  datatype Request = Request(to: string, locale: string, vars: map<string, Value>)

  function BoolText(flag: bool): string {
    if flag then "true" else "false"
  }

  function ValueText(v: Value): Option<string> {
    match v
    case TextValue(text) => Some(Quote(text))
    case BoolValue(flag) => Some(BoolText(flag))
    case NumberValue(source) => CanonicalText(source)
  }

  /** The listed fields; every field but the first is preceded by a comma. */
  function Fields(keys: seq<string>, vars: map<string, Value>, first: bool): Option<string>
    requires forall k :: k in keys ==> k in vars
  {
    if keys == [] then Some("") else
      var value := ValueText(vars[keys[0]]);
      var rest := Fields(keys[1..], vars, false);
      if value.None? || rest.None? then None
      else Some((if first then "" else ",") + (Quote(keys[0]) + (":" + (value.value + rest.value))))
  }

  ghost function VarsText(vars: map<string, Value>): Option<string> {
    var fields := Fields(Arrangement(vars.Keys), vars, true);
    if fields.None? then None else Some("{" + (fields.value + "}"))
  }

  ghost function RequestText(r: Request): Option<string> {
    var vars := VarsText(r.vars);
    if vars.None? then None
    else Some("{\"locale\":" + (Quote(r.locale) + (",\"to\":" + (Quote(r.to) + (",\"vars\":" + (vars.value + "}"))))))
  }

  // ---------- what a canonical text determines ----------

  /** Equal as text, as a boolean, or in canonical number form. */
  predicate SameForm(v: Value, w: Value) {
    match (v, w)
    case (NumberValue(s), NumberValue(t)) => CanonicalText(s) == CanonicalText(t)
    case _ => v == w
  }

  /** Equal as text, as a boolean, or as a rational. */
  ghost predicate SameValue(v: Value, w: Value) {
    match (v, w)
    case (NumberValue(s), NumberValue(t)) => Scan(s).Some? && Scan(t).Some? && ValueOf(s) == ValueOf(t)
    case _ => v == w
  }

  ghost predicate SameVars(v: map<string, Value>, w: map<string, Value>, same: (Value, Value) -> bool) {
    v.Keys == w.Keys && forall k :: k in v ==> same(v[k], w[k])
  }

  predicate IsNumberChar(c: char) {
    IsDigit(c) || c == '-' || c == '+' || c == '.' || c == 'e' || c == 'E'
  }

  lemma NumberAlphabet(n: Number)
    requires WellFormed(n)
    ensures var s := Text(n);
            s != "" && (s[0] == '-' || IsDigit(s[0])) && forall i :: 0 <= i < |s| ==> IsNumberChar(s[i])
  {
    assert forall i :: 0 <= i < |FractionText(n.fraction)| ==> IsNumberChar(FractionText(n.fraction)[i]);
    assert forall i :: 0 <= i < |ExponentText(n.exponent)| ==> IsNumberChar(ExponentText(n.exponent)[i]);
  }

  lemma CanonicalAlphabet(source: string)
    requires CanonicalText(source).Some?
    ensures var s := CanonicalText(source).value;
            s != "" && (s[0] == '-' || IsDigit(s[0])) && forall i :: 0 <= i < |s| ==> IsNumberChar(s[i])
  {
    CanonicalKeepsValue(Scan(source).value);
    NumberAlphabet(Canonical(Scan(source).value));
  }

  function NumberRun(s: string): string {
    if s != "" && IsNumberChar(s[0]) then [s[0]] + NumberRun(s[1..]) else ""
  }

  lemma {:induction false} NumberRunOf(a: string, s: string)
    requires s != "" && !IsNumberChar(s[0]) && forall i :: 0 <= i < |a| ==> IsNumberChar(a[i])
    ensures NumberRun(a + s) == a
  {
    if a == "" {
      assert a + s == s;
    } else {
      assert (a + s)[1..] == a[1..] + s;
      NumberRunOf(a[1..], s);
    }
  }

  /** A run of number characters is delimited by any other character. */
  lemma RunIsSelfDelimiting(a: string, s: string, b: string, t: string)
    requires a + s == b + t && s != "" && t != "" && !IsNumberChar(s[0]) && !IsNumberChar(t[0])
    requires forall i :: 0 <= i < |a| ==> IsNumberChar(a[i])
    requires forall i :: 0 <= i < |b| ==> IsNumberChar(b[i])
    ensures a == b && s == t
  {
    NumberRunOf(a, s);
    NumberRunOf(b, t);
    DropFirst(a, s, t);
  }

  predicate Terminates(s: string) {
    s != "" && (s[0] == ',' || s[0] == '}')
  }

  lemma ValueStart(v: Value)
    requires ValueText(v).Some?
    ensures var s := ValueText(v).value;
            && s != ""
            && (v.TextValue? <==> s[0] == '"')
            && (v.BoolValue? <==> s[0] == 't' || s[0] == 'f')
  {
    if v.NumberValue? {
      CanonicalAlphabet(v.source);
    }
  }

  lemma ValueIsSelfDelimiting(v: Value, s: string, w: Value, t: string)
    requires ValueText(v).Some? && ValueText(w).Some? && Terminates(s) && Terminates(t)
    requires ValueText(v).value + s == ValueText(w).value + t
    ensures SameForm(v, w) && s == t
  {
    hide Quote, CanonicalText;
    var a, b := ValueText(v).value, ValueText(w).value;
    ValueStart(v);
    ValueStart(w);
    assert a[0] == (a + s)[0] && b[0] == (b + t)[0];
    match v {
      case TextValue(x) =>
        QuoteIsSelfDelimiting(x, s, w.text, t);
      case BoolValue(x) =>
        assert s == (a + s)[|a|..] && t == (b + t)[|b|..];
      case NumberValue(x) =>
        CanonicalAlphabet(x);
        CanonicalAlphabet(w.source);
        RunIsSelfDelimiting(a, s, b, t);
    }
  }

  lemma FieldsTerminate(keys: seq<string>, vars: map<string, Value>, s: string)
    requires forall k :: k in keys ==> k in vars
    requires Fields(keys, vars, false).Some?
    ensures Terminates(Fields(keys, vars, false).value + ("}" + s))
  {
  }

  /** One listed field, cut off from the fields after it. */
  lemma FirstField(keys: seq<string>, vars: map<string, Value>, first: bool, s: string)
    requires (forall k :: k in keys ==> k in vars) && keys != [] && Fields(keys, vars, first).Some?
    ensures ValueText(vars[keys[0]]).Some? && Fields(keys[1..], vars, false).Some?
    ensures var rest := Fields(keys[1..], vars, false).value + ("}" + s);
            Fields(keys, vars, first).value + ("}" + s) ==
            (if first then "" else ",") + (Quote(keys[0]) + (":" + (ValueText(vars[keys[0]]).value + rest)))
  {
    hide Quote, ValueText;
  }

  lemma FieldStart(keys: seq<string>, vars: map<string, Value>, first: bool, s: string)
    requires (forall k :: k in keys ==> k in vars) && Fields(keys, vars, first).Some?
    ensures var text := Fields(keys, vars, first).value + ("}" + s);
            text[0] == '}' <==> keys == []
  {
    hide ValueText;
  }

  lemma {:induction false} FieldsAreSelfDelimiting(ks: seq<string>, v: map<string, Value>, s: string,
                                                   ls: seq<string>, w: map<string, Value>, t: string, first: bool)
    requires (forall k :: k in ks ==> k in v) && (forall k :: k in ls ==> k in w)
    requires Fields(ks, v, first).Some? && Fields(ls, w, first).Some?
    requires Fields(ks, v, first).value + ("}" + s) == Fields(ls, w, first).value + ("}" + t)
    ensures ks == ls && forall k :: k in ks ==> k in w && SameForm(v[k], w[k])
    decreases |ks|
  {
    hide Quote, ValueText, SameForm, Fields;
    FieldStart(ks, v, first, s);
    FieldStart(ls, w, first, t);
    if ks != [] && ls != [] {
      FirstField(ks, v, first, s);
      FirstField(ls, w, first, t);
      var ks', ls' := Fields(ks[1..], v, false).value + ("}" + s), Fields(ls[1..], w, false).value + ("}" + t);
      var av, bv := ValueText(v[ks[0]]).value + ks', ValueText(w[ls[0]]).value + ls';
      DropComma(first, Quote(ks[0]) + (":" + av), Quote(ls[0]) + (":" + bv));
      QuoteIsSelfDelimiting(ks[0], ":" + av, ls[0], ":" + bv);
      DropFirst(":", av, bv);
      FieldsTerminate(ks[1..], v, s);
      FieldsTerminate(ls[1..], w, t);
      ValueIsSelfDelimiting(v[ks[0]], ks', w[ls[0]], ls');
      FieldsAreSelfDelimiting(ks[1..], v, s, ls[1..], w, t, false);
      assert ks == [ks[0]] + ks[1..] && ls == [ls[0]] + ls[1..];
    }
  }

  lemma DropFirst(p: string, s: string, t: string)
    requires p + s == p + t
    ensures s == t
  {
    assert s == (p + s)[|p|..] && t == (p + t)[|p|..];
  }

  lemma DropComma(first: bool, s: string, t: string)
    requires (if first then "" else ",") + s == (if first then "" else ",") + t
    ensures s == t
  {
    DropFirst(if first then "" else ",", s, t);
  }

  /** Fields in the same form print the same text. */
  lemma {:induction false} SameFormSameFields(keys: seq<string>, v: map<string, Value>, w: map<string, Value>,
                                              first: bool)
    requires forall k :: k in keys ==> k in v && k in w && SameForm(v[k], w[k])
    ensures Fields(keys, v, first) == Fields(keys, w, first)
  {
    hide Quote, CanonicalText;
    if keys != [] {
      SameFormSameFields(keys[1..], v, w, false);
    }
  }

  lemma RequestPieces(a: Request, b: Request)
    requires RequestText(a).Some? && RequestText(a) == RequestText(b)
    ensures a.locale == b.locale && a.to == b.to
    ensures Fields(Arrangement(a.vars.Keys), a.vars, true).value + ("}" + "}") ==
            Fields(Arrangement(b.vars.Keys), b.vars, true).value + ("}" + "}")
  {
    hide Quote, Fields;
    var va, vb := VarsText(a.vars).value, VarsText(b.vars).value;
    var ta, tb := ",\"vars\":" + (va + "}"), ",\"vars\":" + (vb + "}");
    DropFirst("{\"locale\":", Quote(a.locale) + (",\"to\":" + (Quote(a.to) + ta)),
              Quote(b.locale) + (",\"to\":" + (Quote(b.to) + tb)));
    QuoteIsSelfDelimiting(a.locale, ",\"to\":" + (Quote(a.to) + ta), b.locale, ",\"to\":" + (Quote(b.to) + tb));
    DropFirst(",\"to\":", Quote(a.to) + ta, Quote(b.to) + tb);
    QuoteIsSelfDelimiting(a.to, ta, b.to, tb);
    DropFirst(",\"vars\":", va + "}", vb + "}");
    var fa := Fields(Arrangement(a.vars.Keys), a.vars, true).value;
    var fb := Fields(Arrangement(b.vars.Keys), b.vars, true).value;
    assert va + "}" == "{" + (fa + ("}" + "}")) && vb + "}" == "{" + (fb + ("}" + "}"));
    DropFirst("{", fa + ("}" + "}"), fb + ("}" + "}"));
  }

  /** Two requests have one canonical text exactly when they agree, numbers up to canonical form. */
  lemma SameRequestTextIff(a: Request, b: Request)
    requires RequestText(a).Some? && RequestText(b).Some?
    ensures RequestText(a) == RequestText(b) <==>
            a.locale == b.locale && a.to == b.to && SameVars(a.vars, b.vars, (v, w) => SameForm(v, w))
  {
    hide Quote, Fields, SameForm;
    var ks, ls := Arrangement(a.vars.Keys), Arrangement(b.vars.Keys);
    if RequestText(a) == RequestText(b) {
      RequestPieces(a, b);
      FieldsAreSelfDelimiting(ks, a.vars, "}", ls, b.vars, "}", true);
      assert forall k :: k in a.vars <==> k in ks;
      assert forall k :: k in b.vars <==> k in ls;
      assert a.vars.Keys == b.vars.Keys;
    } else if a.locale == b.locale && a.to == b.to && SameVars(a.vars, b.vars, (v, w) => SameForm(v, w)) {
      SameFormSameFields(ks, a.vars, b.vars, true);
    }
  }

  /** Every number of the request fits the default bound on template variables. */
  predicate BoundedNumbers(r: Request) {
    forall k :: k in r.vars && r.vars[k].NumberValue? ==> |r.vars[k].source| <= 8192
  }

  lemma {:induction false} FieldsRejectIff(keys: seq<string>, vars: map<string, Value>, first: bool)
    requires forall k :: k in keys ==> k in vars
    ensures Fields(keys, vars, first).Some? <==>
            forall k :: k in keys && vars[k].NumberValue? ==> IsJsonNumber(vars[k].source)
  {
    hide Quote, CanonicalText;
    if keys != [] {
      FieldsRejectIff(keys[1..], vars, false);
      assert keys == [keys[0]] + keys[1..];
      if vars[keys[0]].NumberValue? {
        AcceptsExactlyTheGrammar(vars[keys[0]].source);
      }
    }
  }

  /** A request has a canonical text exactly when its numbers are JSON numbers. */
  lemma RejectsExactlyBadNumbers(r: Request)
    ensures RequestText(r).Some? <==>
            forall k :: k in r.vars && r.vars[k].NumberValue? ==> IsJsonNumber(r.vars[k].source)
  {
    FieldsRejectIff(Arrangement(r.vars.Keys), r.vars, true);
    assert forall k :: k in Arrangement(r.vars.Keys) <==> k in r.vars;
  }

  /** Whatever the lengths, one canonical text means one meaning. */
  lemma RequestTextIsInjective(a: Request, b: Request)
    requires RequestText(a).Some? && RequestText(a) == RequestText(b)
    ensures a.locale == b.locale && a.to == b.to && SameVars(a.vars, b.vars, (v, w) => SameValue(v, w))
  {
    hide RequestText, CanonicalText, ValueOf;
    SameRequestTextIff(a, b);
    RejectsExactlyBadNumbers(a);
    RejectsExactlyBadNumbers(b);
    forall k | k in a.vars
      ensures SameValue(a.vars[k], b.vars[k])
    {
      if a.vars[k].NumberValue? {
        var s, t := a.vars[k].source, b.vars[k].source;
        AcceptsExactlyTheGrammar(s);
        AcceptsExactlyTheGrammar(t);
        ScanAcceptsTheGrammar(s);
        ScanAcceptsTheGrammar(t);
        SameTextIff(s, t);
      }
    }
  }

  /** Within the bound, the fingerprint preimage is exactly the meaning of the request. */
  lemma PreimageIsTheMeaning(a: Request, b: Request)
    requires RequestText(a).Some? && RequestText(b).Some? && BoundedNumbers(a) && BoundedNumbers(b)
    ensures RequestText(a) == RequestText(b) <==>
            a.locale == b.locale && a.to == b.to && SameVars(a.vars, b.vars, (v, w) => SameValue(v, w))
  {
    hide RequestText, CanonicalText, ValueOf;
    if RequestText(a) == RequestText(b) {
      RequestTextIsInjective(a, b);
    } else if a.locale == b.locale && a.to == b.to && SameVars(a.vars, b.vars, (v, w) => SameValue(v, w)) {
      forall k | k in a.vars
        ensures SameForm(a.vars[k], b.vars[k])
      {
        assert SameValue(a.vars[k], b.vars[k]);
        if a.vars[k].NumberValue? {
          BoundedNumbersCompareByValue(a.vars[k].source, b.vars[k].source);
        }
      }
      SameRequestTextIff(a, b);
    }
  }

  /** The preimage of a request with one variable, character by character. */
  lemma PreimageOfOneVariable(to: string, locale: string, flag: bool)
    ensures RequestText(Request(to, locale, map["k" := BoolValue(flag)])) ==
            Some("{\"locale\":" + (Quote(locale) + (",\"to\":" + (Quote(to)
                 + (",\"vars\":" + (("{\"k\":" + (if flag then "true" else "false") + "}") + "}"))))))
  {
    hide Less, Quote;
    var vars := map["k" := BoolValue(flag)];
    var keys := ["k"];
    assert vars.Keys == {"k"};
    AscendingIsUnique(keys, Arrangement(vars.Keys), vars.Keys);
    var text := if flag then "true" else "false";
    assert keys[1..] == [];
    assert Quote("k") == "\"k\"" by {
      OneLetter();
    }
    assert Fields(keys, vars, true) == Some("" + (Quote("k") + (":" + (text + ""))));
    assert "" + (Quote("k") + (":" + (text + ""))) == "\"k\":" + text;
    assert "{" + (("\"k\":" + text) + "}") == "{\"k\":" + text + "}";
  }

  lemma OneLetter()
    ensures Quote("k") == "\"k\""
  {
    assert "k"[1..] == "";
    assert EscapeAll("k") == Escape('k') + EscapeAll("");
  }

  // ---------- the builder ----------

  method WriteCanonicalValue(value: Value) returns (text: Option<string>)
    ensures text == ValueText(value)
  {
    match value {
      case TextValue(t) => text := Some(Quote(t));
      case BoolValue(flag) => text := Some(BoolText(flag));
      case NumberValue(source) => text := CanonicalJsonNumber(source);
    }
  }

  /** The whole object, once the fields still to be written follow the builder. */
  function Finish(builder: string, fields: Option<string>): Option<string> {
    if fields.None? then None else Some(builder + (fields.value + "}"))
  }

  lemma FinishStep(builder: string, keys: seq<string>, vars: map<string, Value>, first: bool)
    requires (forall k :: k in keys ==> k in vars) && keys != []
    ensures var value := ValueText(vars[keys[0]]);
            Finish(builder, Fields(keys, vars, first)) ==
            if value.None? then None
            else Finish(builder + (if first then "" else ",") + Quote(keys[0]) + ":" + value.value,
                        Fields(keys[1..], vars, false))
  {
    hide Quote, ValueText;
    var value, rest := ValueText(vars[keys[0]]), Fields(keys[1..], vars, false);
    if value.Some? && rest.Some? {
      Reassociate(builder, if first then "" else ",", Quote(keys[0]), value.value, rest.value);
    }
  }

  lemma Reassociate(builder: string, comma: string, key: string, value: string, rest: string)
    ensures builder + ((comma + (key + (":" + (value + rest)))) + "}") ==
            (builder + comma + key + ":" + value) + (rest + "}")
  {
  }

  method WriteCanonicalVars(vars: map<string, Value>) returns (r: Option<string>)
    ensures r == VarsText(vars)
  {
    hide Quote, ValueText, Fields;
    var keys := SortedKeys(vars.Keys);
    AscendingIsUnique(keys, Arrangement(vars.Keys), vars.Keys);
    assert forall k :: k in keys <==> k in vars;
    var builder := "{";
    var index := 0;
    while index < |keys|
      invariant 0 <= index <= |keys|
      invariant Finish("{", Fields(keys, vars, true)) == Finish(builder, Fields(keys[index..], vars, index == 0))
    {
      var key := keys[index];
      FinishStep(builder, keys[index..], vars, index == 0);
      assert keys[index..][1..] == keys[index + 1..];
      builder := builder + (if index > 0 then "," else "");
      var value := WriteCanonicalValue(vars[key]);
      if value.None? {
        return None;
      }
      builder := builder + Quote(key) + ":" + value.value;
      index := index + 1;
    }
    assert Fields(keys[index..], vars, index == 0) == Some("") by {
      NoFields(keys[index..], vars, index == 0);
    }
    r := Some(builder + "}");
    assert builder + ("" + "}") == builder + "}";
  }

  lemma NoFields(keys: seq<string>, vars: map<string, Value>, first: bool)
    requires keys == []
    ensures Fields(keys, vars, first) == Some("")
  {
  }

  method CanonicalRequestJson(normalizedToEmail: string, locale: string, vars: map<string, Value>)
    returns (r: Option<string>)
    ensures r == RequestText(Request(normalizedToEmail, locale, vars))
  {
    hide Quote, VarsText;
    var builder := "{\"locale\":" + Quote(locale);
    builder := builder + ",\"to\":" + Quote(normalizedToEmail);
    builder := builder + ",\"vars\":";
    var varsText := WriteCanonicalVars(vars);
    if varsText.None? {
      return None;
    }
    builder := builder + varsText.value + "}";
    assert builder
      == "{\"locale\":"
         + (Quote(locale) + (",\"to\":" + (Quote(normalizedToEmail) + (",\"vars\":" + (varsText.value + "}")))));
    r := Some(builder);
  }
}
