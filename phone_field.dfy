/** `PhoneField`: its validator, its constructor defaults, `deconstruct`, `formfield` and `format_display`. */
module PhoneField {
  import opened Wrappers
  import opened PyText

  // ---------------------------------------------------------------------------
  // The validator `RegexValidator(regex=r"^\+\d+$", message=...)`.

  const InvalidPhone: string := "Phone number must start with + followed by digits only (e.g., +31612345678)"

  /**
   * `re.search(r"^\+\d+$", s)`. Without MULTILINE `^` holds only at 0; `$` holds at the end and
   * before a final "\n". The greedy digit run can only end there, so backing off never helps.
   */
  predicate PhoneMatches(s: string, isDigit: char -> bool) {
    |s| >= 2 && s[0] == '+' &&
    var e := SkipDigits(s, 1, isDigit);
    e > 1 && (e == |s| || (e == |s| - 1 && s[e] == '\n'))
  }

  /** A '+', one or more digits, and at most one trailing newline. */
  ghost predicate PhoneShape(s: string, isDigit: char -> bool) {
    exists d: string :: d != [] && (forall k :: 0 <= k < |d| ==> isDigit(d[k])) && (s == "+" + d || s == "+" + d + "\n")
  }

  lemma PhoneMatchesShape(s: string, isDigit: char -> bool)
    requires DecimalDigits(isDigit)
    ensures PhoneMatches(s, isDigit) <==> PhoneShape(s, isDigit)
  {
    if PhoneMatches(s, isDigit) { MatchedHasShape(s, isDigit); }
    if PhoneShape(s, isDigit) { ShapeIsMatched(s, isDigit); }
  }

  lemma MatchedHasShape(s: string, isDigit: char -> bool)
    requires PhoneMatches(s, isDigit)
    ensures PhoneShape(s, isDigit)
  {
    var e := SkipDigits(s, 1, isDigit);
    var d := s[1..e];
    assert forall k :: 0 <= k < |d| ==> isDigit(d[k]) by {
      forall k | 0 <= k < |d| ensures isDigit(d[k]) { assert d[k] == s[1 + k]; }
    }
    if e == |s| { assert s == "+" + d; } else { assert s == "+" + d + "\n"; }
  }

  lemma ShapeIsMatched(s: string, isDigit: char -> bool)
    requires DecimalDigits(isDigit) && PhoneShape(s, isDigit)
    ensures PhoneMatches(s, isDigit)
  {
    var d: string :| d != [] && (forall k :: 0 <= k < |d| ==> isDigit(d[k])) && (s == "+" + d || s == "+" + d + "\n");
    if s == "+" + d {
      PlusDigitsMatched(d, isDigit);
    } else {
      PlusDigitsNewlineMatched(d, isDigit);
    }
  }

  lemma PlusDigitsMatched(d: string, isDigit: char -> bool)
    requires d != [] && forall k :: 0 <= k < |d| ==> isDigit(d[k])
    ensures PhoneMatches("+" + d, isDigit)
  {
    var s := "+" + d;
    forall x | 1 <= x < |s| ensures isDigit(s[x]) { assert s[x] == d[x - 1]; }
    SkipDigitsIs(s, 1, isDigit, |s|);
  }

  lemma PlusDigitsNewlineMatched(d: string, isDigit: char -> bool)
    requires DecimalDigits(isDigit) && d != [] && forall k :: 0 <= k < |d| ==> isDigit(d[k])
    ensures PhoneMatches("+" + d + "\n", isDigit)
  {
    var s := "+" + d + "\n";
    forall x | 1 <= x < 1 + |d| ensures isDigit(s[x]) { assert s[x] == d[x - 1]; }
    assert s[1 + |d|] == '\n' && !isDigit('\n');
    SkipDigitsIs(s, 1, isDigit, 1 + |d|);
  }

  /** The validator's verdict: `None` accepts, `Some(message)` is the `ValidationError`. */
  function Validate(s: string, isDigit: char -> bool): (r: Option<string>)
    ensures r.None? <==> PhoneMatches(s, isDigit)
    ensures r.Some? ==> r.value == InvalidPhone
  {
    if PhoneMatches(s, isDigit) then None else Some(InvalidPhone)
  }

  /** The validator accepts exactly a '+', one or more digits and at most one final newline; it rejects anything else with its message. */
  lemma ValidateVerdict(s: string, isDigit: char -> bool)
    requires DecimalDigits(isDigit)
    ensures Validate(s, isDigit).None? <==> PhoneShape(s, isDigit)
    ensures !PhoneShape(s, isDigit) ==> Validate(s, isDigit) == Some(InvalidPhone)
  {
    PhoneMatchesShape(s, isDigit);
  }

  lemma ValidatorExamples(isDigit: char -> bool)
    requires DecimalDigits(isDigit)
    ensures Validate("+31612345678", isDigit).None?
    ensures Validate("+31612345678\n", isDigit).None?
    ensures Validate("+", isDigit).Some? && Validate("0031612345678", isDigit).Some?
    ensures Validate("+31 612", isDigit).Some?
  {
    AcceptsDigits(isDigit);
    AcceptsFinalNewline(isDigit);
    RejectsSpace(isDigit);
  }

  /** Characters that are ASCII digits are digits for `\d`. */
  lemma AsciiDigitRun(s: string, i: nat, j: nat, isDigit: char -> bool)
    requires DecimalDigits(isDigit) && i <= j <= |s|
    requires forall x :: i <= x < j ==> IsAsciiDigit(s[x])
    ensures forall x :: i <= x < j ==> isDigit(s[x])
  {
  }

  lemma AcceptsDigits(isDigit: char -> bool)
    requires DecimalDigits(isDigit)
    ensures PhoneMatches("+31612345678", isDigit)
  {
    var s := "+31612345678";
    AsciiDigitRun(s, 1, |s|, isDigit);
    SkipDigitsIs(s, 1, isDigit, |s|);
  }

  lemma AcceptsFinalNewline(isDigit: char -> bool)
    requires DecimalDigits(isDigit)
    ensures PhoneMatches("+31612345678\n", isDigit)
  {
    var t := "+31612345678\n";
    AsciiDigitRun(t, 1, |t| - 1, isDigit);
    assert !isDigit(t[|t| - 1]);
    SkipDigitsIs(t, 1, isDigit, |t| - 1);
  }

  lemma RejectsSpace(isDigit: char -> bool)
    requires DecimalDigits(isDigit)
    ensures !PhoneMatches("+31 612", isDigit)
  {
    var u := "+31 612";
    AsciiDigitRun(u, 1, 3, isDigit);
    assert !isDigit(u[3]);
    SkipDigitsIs(u, 1, isDigit, 3);
  }

  // ---------------------------------------------------------------------------
  // Keyword arguments and the options Django keeps for a field.

  datatype Value = IntValue(i: int) | BoolValue(b: bool) | StrValue(s: string) | NoneValue

  type Kwargs = map<string, Value>

  /** `kwargs.setdefault("max_length", 20); kwargs.setdefault("blank", True)` */
  function WithDefaults(kwargs: Kwargs): (r: Kwargs)
    ensures r.Keys == kwargs.Keys + {"max_length", "blank"}
    ensures r["max_length"] == (if "max_length" in kwargs then kwargs["max_length"] else IntValue(20))
    ensures r["blank"] == (if "blank" in kwargs then kwargs["blank"] else BoolValue(true))
    ensures forall k :: k in kwargs ==> r[k] == kwargs[k]
  {
    var withLength := if "max_length" in kwargs then kwargs else kwargs["max_length" := IntValue(20)];
    if "blank" in withLength then withLength else withLength["blank" := BoolValue(true)]
  }

  /**
   * The options `Field.deconstruct` compares against: Django's own defaults for `blank`, `null` and
   * `max_length` (the other options are not needed here and are kept whenever given).
   */
  const FieldDefaults: Kwargs := map["blank" := BoolValue(false), "null" := BoolValue(false), "max_length" := NoneValue]

  /** The options of a field built from `kwargs`: Django's defaults, overridden by what was passed. */
  function Options(kwargs: Kwargs): Kwargs {
    FieldDefaults + WithDefaults(kwargs)
  }

  /** `super().deconstruct()`'s keyword arguments: every option that differs from Django's default. */
  function FieldDeconstruct(options: Kwargs): (r: Kwargs)
    ensures forall k :: k in r <==> k in options && !(k in FieldDefaults && options[k] == FieldDefaults[k])
    ensures forall k :: k in r ==> r[k] == options[k]
  {
    map k | k in options && !(k in FieldDefaults && options[k] == FieldDefaults[k]) :: options[k]
  }

  /**
   * `PhoneField.deconstruct`: of what Django's `deconstruct` records, `max_length` is deleted when
   * it is 20 and `blank` when it is True; every other keyword argument is kept with its value.
   */
  function DeconstructAsWritten(options: Kwargs): (r: Kwargs)
    ensures forall k :: k in r <==>
      k in FieldDeconstruct(options) &&
      !(k == "max_length" && FieldDeconstruct(options)[k] == IntValue(20)) &&
      !(k == "blank" && FieldDeconstruct(options)[k] == BoolValue(true))
    ensures forall k :: k in r ==> r[k] == FieldDeconstruct(options)[k] == options[k]
  {
    var kw := FieldDeconstruct(options);
    var kw1 := if "max_length" in kw && kw["max_length"] == IntValue(20) then kw - {"max_length"} else kw;
    if "blank" in kw1 && kw1["blank"] == BoolValue(true) then kw1 - {"blank"} else kw1
  }

  /**
   * Rebuilding a field from what it deconstructs to, as written, keeps every option except two
   * that fall back to the constructor's defaults: `blank=False` (Django's own default, so never
   * recorded) comes back True, and `max_length=None` likewise comes back 20.
   */
  lemma DeconstructAsWrittenRoundTrip(kwargs: Kwargs)
    ensures var o := Options(kwargs); var back := Options(DeconstructAsWritten(o));
      && back.Keys == o.Keys
      && back["blank"] == (if o["blank"] == BoolValue(false) then BoolValue(true) else o["blank"])
      && back["max_length"] == (if o["max_length"] == NoneValue then IntValue(20) else o["max_length"])
      && forall k :: k in o && k != "blank" && k != "max_length" ==> back[k] == o[k]
  {
    var o := Options(kwargs);
    var back := Options(DeconstructAsWritten(o));
    forall k ensures k in back <==> k in o {
      AsWrittenRoundTripAt(kwargs, k);
    }
    AsWrittenRoundTripAt(kwargs, "blank");
    AsWrittenRoundTripAt(kwargs, "max_length");
    forall k | k in o && k != "blank" && k != "max_length" ensures back[k] == o[k] {
      AsWrittenRoundTripAt(kwargs, k);
    }
  }

  lemma AsWrittenRoundTripAt(kwargs: Kwargs, k: string)
    ensures var o := Options(kwargs); var back := Options(DeconstructAsWritten(o));
      && (k in back <==> k in o)
      && (k == "blank" ==> back[k] == (if o[k] == BoolValue(false) then BoolValue(true) else o[k]))
      && (k == "max_length" ==> back[k] == (if o[k] == NoneValue then IntValue(20) else o[k]))
      && (k in o && k != "blank" && k != "max_length" ==> back[k] == o[k])
  {
    var o := Options(kwargs);
    var d := DeconstructAsWritten(o);
    var f := FieldDeconstruct(o);
    var w := WithDefaults(d);
    assert "max_length" in o && "blank" in o;
    assert k in d ==> d[k] == o[k];
    if k == "max_length" || k == "blank" {
      assert k in w;
    } else {
      assert k in d <==> k in f;
      assert k in w <==> k in d;
    }
  }

  /**
   * As written, a field declared `PhoneField(blank=False)` deconstructs without `blank` (Django
   * already dropped its own default), and the field rebuilt from that has `blank=True`.
   */
  lemma BlankFalseIsLost()
    ensures Options(map["blank" := BoolValue(false)])["blank"] == BoolValue(false)
    ensures Options(DeconstructAsWritten(Options(map["blank" := BoolValue(false)])))["blank"] == BoolValue(true)
  {
    var o := Options(map["blank" := BoolValue(false)]);
    assert "blank" !in FieldDeconstruct(o);
  }

  /** `deconstruct` with the two defaults written out whenever they differ from 20 and True. */
  function Deconstructed(options: Kwargs): (r: Kwargs)
    ensures "max_length" in r ==> r["max_length"] != IntValue(20)
    ensures "blank" in r ==> r["blank"] != BoolValue(true)
  {
    var kw := FieldDeconstruct(options);
    var kw1 :=
      if "max_length" !in options then kw
      else if options["max_length"] == IntValue(20) then kw - {"max_length"}
      else kw["max_length" := options["max_length"]];
    if "blank" !in options then kw1
    else if options["blank"] == BoolValue(true) then kw1 - {"blank"}
    else kw1["blank" := options["blank"]]
  }

  /** Rebuilding a field from what it deconstructs to gives back the same options. */
  lemma DeconstructRoundTrip(kwargs: Kwargs)
    ensures Options(Deconstructed(Options(kwargs))) == Options(kwargs)
  {
    var o := Options(kwargs);
    var back := Options(Deconstructed(o));
    forall k ensures (k in back <==> k in o) && (k in o ==> back[k] == o[k]) {
      RoundTripAt(kwargs, k);
    }
    SameMaps(back, o);
  }

  /** Maps with the same keys and the same value at each key are equal. */
  lemma SameMaps(a: Kwargs, b: Kwargs)
    requires forall k :: (k in a <==> k in b) && (k in b ==> a[k] == b[k])
    ensures a == b
  {
    assert a.Keys == b.Keys;
  }

  lemma RoundTripAt(kwargs: Kwargs, k: string)
    ensures var o := Options(kwargs); var back := Options(Deconstructed(o));
      (k in back <==> k in o) && (k in o ==> back[k] == o[k])
  {
    var o := Options(kwargs);
    var d := Deconstructed(o);
    var w := WithDefaults(d);
    assert "max_length" in o && "blank" in o;
    if k == "max_length" {
      assert "max_length" in w;
      if o["max_length"] == IntValue(20) {
        assert "max_length" !in d;
      } else {
        assert d["max_length"] == o["max_length"];
      }
    } else if k == "blank" {
      assert "blank" in w;
      if o["blank"] == BoolValue(true) {
        assert "blank" !in d;
      } else {
        assert d["blank"] == o["blank"];
      }
    } else {
      var f := FieldDeconstruct(o);
      assert k in d <==> k in f;
      assert k in d ==> d[k] == f[k];
      assert k in w <==> k in d;
    }
  }

  /** `PhoneField(**kwargs)` */
  class PhoneFieldDecl {
    const options: Kwargs

    constructor (kwargs: Kwargs)
      ensures options == Options(kwargs)
    {
      var kw := kwargs;
      if "max_length" !in kw {
        kw := kw["max_length" := IntValue(20)];
      }
      if "blank" !in kw {
        kw := kw["blank" := BoolValue(true)];
      }
      options := FieldDefaults + kw;
    }

    /** The keyword arguments a migration records: `max_length` 20 and `blank` True deleted in place. */
    method Deconstruct() returns (kwargs: Kwargs)
      ensures kwargs == DeconstructAsWritten(options)
      ensures "max_length" in kwargs ==> kwargs["max_length"] != IntValue(20)
      ensures "blank" in kwargs ==> kwargs["blank"] != BoolValue(true)
    {
      kwargs := FieldDeconstruct(options);
      if "max_length" in kwargs && kwargs["max_length"] == IntValue(20) {
        kwargs := kwargs - {"max_length"};
      }
      if "blank" in kwargs && kwargs["blank"] == BoolValue(true) {
        kwargs := kwargs - {"blank"};
      }
    }

    /** The keyword arguments `formfield` hands to `CharField.formfield`: a `help_text` the caller may override. */
    method Formfield(kwargs: Kwargs) returns (defaults: Kwargs)
      ensures defaults.Keys == kwargs.Keys + {"help_text"}
      ensures forall k :: k in kwargs ==> defaults[k] == kwargs[k]
      ensures "help_text" !in kwargs ==> defaults["help_text"] == StrValue(PhoneHelpText)
    {
      defaults := map["help_text" := StrValue(PhoneHelpText)];
      defaults := defaults + kwargs;
    }
  }

  const PhoneHelpText: string := "Format: +31612345678"

  // ---------------------------------------------------------------------------
  // `format_display`, on the stored string.

  function FormatDisplay(s: string): string {
    if s == [] then []
    else if |s| <= 3 then s + " "
    else s[..3] + " " + Join(" ", Groups(s[3..], 3))
  }

  /** Short numbers keep a trailing space: `s[:3] + " " + ""`. */
  lemma ShortDisplay(s: string)
    requires 1 <= |s| <= 3
    ensures FormatDisplay(s) == s + " "
  {
  }

  /** For a space-free number longer than three, the display splits at its spaces into the first three
      characters and then groups of three with a shorter last one, which concatenate back to the number. */
  lemma DisplayGroups(s: string)
    requires |s| > 3 && ' ' !in s
    ensures var parts := Split(FormatDisplay(s), ' ');
      && parts == [s[..3]] + Groups(s[3..], 3)
      && Concat(parts) == s
      && forall i :: 0 <= i < |parts| ==> 1 <= |parts[i]| <= 3 && (i < |parts| - 1 ==> |parts[i]| == 3)
  {
    var rest := Groups(s[3..], 3);
    assert ' ' !in s[3..] by {
      forall x | 0 <= x < |s| - 3 ensures s[3..][x] != ' ' { assert s[3..][x] == s[3 + x]; }
    }
    GroupsAvoid(s[3..], 3, ' ');
    assert ' ' !in s[..3] by {
      forall x | 0 <= x < 3 ensures s[..3][x] != ' ' { assert s[..3][x] == s[x]; }
    }
    var parts := [s[..3]] + rest;
    assert Join(" ", parts) == s[..3] + " " + Join(" ", rest) by {
      assert parts[1..] == rest;
    }
    SplitJoin(parts, ' ');
    assert Concat(parts) == s[..3] + Concat(rest) by {
      assert parts[1..] == rest;
    }
    assert s[..3] + s[3..] == s;
  }

  lemma GroupsExample()
    ensures Groups("612345678", 3) == ["612", "345", "678"]
  {
    GroupsOfThree("612", "345", "678");
    assert "612" + "345" + "678" == "612345678";
  }

  lemma DisplayExample()
    ensures FormatDisplay("+31612345678") == "+31 612 345 678"
  {
    DisplaySplit();
    GroupsExample();
    GroupsJoined();
    assert "+31" + " " + "612 345 678" == "+31 612 345 678";
  }

  lemma DisplaySplit()
    ensures "+31612345678"[..3] == "+31" && "+31612345678"[3..] == "612345678"
  {
  }

  lemma GroupsJoined()
    ensures Join(" ", ["612", "345", "678"]) == "612 345 678"
  {
    JoinThree(" ", "612", "345", "678");
    assert "612" + " " + "345" + " " + "678" == "612 345 678";
  }
}
