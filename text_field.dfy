/** `TextField`: a single-line text input with a length limit. */
module TextField {
  import opened Wrappers
  import opened Assoc
  import opened Values
  import opened FieldBase
  import opened Definitions
  import Text

  /** `array_filter($rules, fn ($rule) => strpos($rule, $marker) === false)` */
  function WithoutContaining(rules: seq<string>, marker: string): (kept: seq<string>)
    ensures |kept| <= |rules|
    ensures forall t :: t in kept <==> t in rules && !Text.Contains(t, marker)
  {
    if |rules| == 0 then []
    else
      var rest := WithoutContaining(rules[1..], marker);
      if Text.Contains(rules[0], marker) then rest else [rules[0]] + rest
  }

  /** The length token as the source builds it: the limit `255` is written as a literal. */
  function LengthTokenAsWritten(marker: string, length: int): string {
    marker + "255"
  }

  /** The length token that carries the limit the caller asked for. */
  function LengthToken(marker: string, length: int): (token: string)
    ensures marker <= token
    ensures length >= 0 ==> Text.ParseNat(token[|marker|..]) == length
  {
    var token := marker + Text.IntToString(length);
    assert token[|marker|..] == Text.IntToString(length);
    if length >= 0 then Text.NatToStringRoundTrip(length); token else token
  }

  /**
   * The source's token carries the limit asked for only when that limit is
   * the default 255; every other limit is written as 255.
   */
  lemma LengthTokenAsWrittenIgnoresLength(marker: string, length: int)
    requires length >= 0
    ensures LengthTokenAsWritten(marker, length) == LengthToken(marker, length) <==> length == 255
  {
    var token := LengthTokenAsWritten(marker, length);
    assert token[|marker|..] == "255" == Text.NatToString(255);
    Text.NatToStringRoundTrip(255);
    assert Text.IntToString(255) == Text.NatToString(255);
    if token == LengthToken(marker, length) {
      assert Text.ParseNat(token[|marker|..]) == 255;
    }
  }

  /**
   * `maxLength` (and `minLength` with `marker` `min:` and key `min`): drops
   * every earlier token mentioning the marker, adds the new limit token and
   * records the limit in the extra data.
   */
  method LengthLimit(f: BaseField, marker: string, key: string, length: int)
    modifies f`validationRules, f`definition
    ensures f.validationRules == WithoutContaining(old(f.validationRules), marker) + [LengthToken(marker, length)]
    ensures f.definition == old(f.definition).(extraData := ReplaceRecursive(old(f.definition.extraData), [(S(key), Int(length))]))
    ensures forall j :: Lookup(f.definition.extraData, j) == if j == S(key) then Some(Int(length)) else Lookup(old(f.definition.extraData), j)
  {
    f.SetValidation(WithoutContaining(f.validationRules, marker));
    f.AddValidation(LengthToken(marker, length));
    f.AddExtraEntry(key, Int(length));
  }

  lemma {:induction false} WithoutContainingAppend(a: seq<string>, b: seq<string>, marker: string)
    ensures WithoutContaining(a + b, marker) == WithoutContaining(a, marker) + WithoutContaining(b, marker)
    decreases |a|
  {
    if |a| > 0 {
      assert (a + b)[1..] == a[1..] + b;
      WithoutContainingAppend(a[1..], b, marker);
    } else {
      assert a + b == b;
    }
  }

  lemma {:induction false} WithoutContainingTwice(rules: seq<string>, marker: string)
    ensures WithoutContaining(WithoutContaining(rules, marker), marker) == WithoutContaining(rules, marker)
    decreases |rules|
  {
    if |rules| > 0 {
      WithoutContainingTwice(rules[1..], marker);
      if !Text.Contains(rules[0], marker) {
        var rest := WithoutContaining(rules[1..], marker);
        assert ([rules[0]] + rest)[1..] == rest;
      }
    }
  }

  /**
   * Applying the same length limit twice is applying it once: the first
   * call's token mentions the marker, so the second call drops it before
   * adding it again, and the extra data is already up to date.
   */
  lemma LengthLimitIdempotent(rules: seq<string>, extra: Entries, marker: string, key: string, length: int)
    ensures var once := WithoutContaining(rules, marker) + [LengthToken(marker, length)];
      WithoutContaining(once, marker) + [LengthToken(marker, length)] == once
    ensures var data := [(S(key), Int(length))];
      ReplaceRecursive(ReplaceRecursive(extra, data), data) == ReplaceRecursive(extra, data)
  {
    var token := LengthToken(marker, length);
    WithoutContainingAppend(WithoutContaining(rules, marker), [token], marker);
    WithoutContainingTwice(rules, marker);
    assert token[..|marker|] == marker;
    assert Text.Contains(token, marker);
    var none: seq<string> := [];
    assert [token][1..] == none;
    assert WithoutContaining([token], marker) == none;
    ReplaceRecursiveIdempotent(extra, [(S(key), Int(length))]);
  }

  /** `maxLength` */
  method MaxLength(f: BaseField, length: int)
    modifies f`validationRules, f`definition
    ensures f.validationRules == WithoutContaining(old(f.validationRules), "max:") + [LengthToken("max:", length)]
    ensures f.definition == old(f.definition).(extraData := ReplaceRecursive(old(f.definition.extraData), [(S("max"), Int(length))]))
    ensures forall j :: Lookup(f.definition.extraData, j) == if j == S("max") then Some(Int(length)) else Lookup(old(f.definition.extraData), j)
  {
    LengthLimit(f, "max:", "max", length);
  }

  /** `minLength` */
  method MinLength(f: BaseField, length: int)
    modifies f`validationRules, f`definition
    ensures f.validationRules == WithoutContaining(old(f.validationRules), "min:") + [LengthToken("min:", length)]
    ensures f.definition == old(f.definition).(extraData := ReplaceRecursive(old(f.definition.extraData), [(S("min"), Int(length))]))
    ensures forall j :: Lookup(f.definition.extraData, j) == if j == S("min") then Some(Int(length)) else Lookup(old(f.definition.extraData), j)
  {
    LengthLimit(f, "min:", "min", length);
  }

  /**
   * `maxLength`/`minLength` as written: the same filtering and extra data,
   * but the appended token is always the marker followed by `255`.
   */
  method LengthLimitAsWritten(f: BaseField, marker: string, key: string, length: int)
    modifies f`validationRules, f`definition
    ensures f.validationRules == WithoutContaining(old(f.validationRules), marker) + [LengthTokenAsWritten(marker, length)]
    ensures f.definition == old(f.definition).(extraData := ReplaceRecursive(old(f.definition.extraData), [(S(key), Int(length))]))
  {
    f.SetValidation(WithoutContaining(f.validationRules, marker));
    f.AddValidation(LengthTokenAsWritten(marker, length));
    f.AddExtraEntry(key, Int(length));
  }

  /** `maxLength` as written: the token is `max:255` whatever `length` is; `extra_data.max` is `length`. */
  method MaxLengthAsWritten(f: BaseField, length: int)
    modifies f`validationRules, f`definition
    ensures f.validationRules == WithoutContaining(old(f.validationRules), "max:") + ["max:255"]
    ensures f.definition == old(f.definition).(extraData := ReplaceRecursive(old(f.definition.extraData), [(S("max"), Int(length))]))
  {
    assert LengthTokenAsWritten("max:", length) == "max:255";
    LengthLimitAsWritten(f, "max:", "max", length);
  }

  /** `minLength` as written: the token is `min:255` whatever `length` is; `extra_data.min` is `length`. */
  method MinLengthAsWritten(f: BaseField, length: int)
    modifies f`validationRules, f`definition
    ensures f.validationRules == WithoutContaining(old(f.validationRules), "min:") + ["min:255"]
    ensures f.definition == old(f.definition).(extraData := ReplaceRecursive(old(f.definition.extraData), [(S("min"), Int(length))]))
  {
    assert LengthTokenAsWritten("min:", length) == "min:255";
    LengthLimitAsWritten(f, "min:", "min", length);
  }

  /** What `maxLength()` does to the defaults: the rules become `string|max:255` and `max` 255 is the only extra data. */
  lemma DefaultLimit()
    ensures WithoutContaining(["string"], "max:") + [LengthToken("max:", 255)] == ["string", "max:255"]
    ensures ReplaceRecursive([], [(S("max"), Int(255))]) == [(S("max"), Int(255))]
  {
    assert Text.IntToString(255) == Text.NatToString(255) == "255";
    assert "max:" + "255" == "max:255";
    assert WithoutContaining(["string"], "max:") == ["string"] by {
      Text.NotContainsChar("string", "max:");
    }
    ReplaceIntoEmpty([(S("max"), Int(255))]);
  }

  /** The `maxLength()` call of `setDefaultDefinition`, on a field that so far has the one token `string`. */
  method DefaultMaxLength(f: BaseField)
    requires f.validationRules == ["string"] && f.definition.extraData == []
    modifies f`validationRules, f`definition
    ensures f.validationRules == ["string", "max:255"]
    ensures f.definition == old(f.definition).(extraData := [(S("max"), Int(255))])
  {
    DefaultLimit();
    MaxLength(f, 255);
  }

  /** `new TextField($name)`: type `TEXT`, input `text`, rules `string|max:255`, extra data `max` 255. */
  method Create(name: Option<string>) returns (f: BaseField)
    ensures fresh(f) && f.Valid() && f.kind == TextInput && NamedAs(f, name)
    ensures f.definition == Named(DefaultDefinition().(typ := Some("TEXT"), inputType := Some("text"),
                                                       extraData := [(S("max"), Int(255))]), name)
    ensures f.requiredRule == "nullable" && f.validationRules == ["string", "max:255"]
  {
    f := new BaseField(TextInput);
    f.Type("TEXT");
    f.InputType("text");
    f.AddValidation("string");
    DefaultMaxLength(f);
    f.NameIfGiven(name);
  }
}
