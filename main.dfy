/** The application state of `src/main.rs`: the raw form (`PreField`), the
    last validated submission (`Field`) and the colour theme, and the
    message handler that edits the form, validates and commits it, or
    toggles the theme. */
module App {
  import opened Ints
  import opened Models
  import opened Parse
  import opened Util

  /** The two themes the app switches between. */
  datatype Theme = Light | Dark

  /** The form as typed: three text fields, the slider value and the model
      choice. */
  datatype PreField = PreField(position: string, startPrice: string, dipPrice: string,
                               resolution: u32, model: Model)

  /** A validated submission; `integrity` records that one has been made. */
  datatype Field = Field(position: u32, startPrice: u32, dipPrice: u32,
                         resolution: u32, model: Model, integrity: bool)

  datatype Message =
    | FieldStrChange(position: string, start: string, dip: string)
    | SliderChange(val: u32)
    | ModelSelect(model: Model)
    | Submit
    | ToggleTheme

  datatype Error = NotIntegerError | ValueError

  datatype Result<T> = Ok(value: T) | Err(error: Error)

  /** The submission `Bear::new` starts from: zeros, four rungs, flat hat,
      nothing submitted yet. */
  const INITIAL_FIELDS: Field := Field(0, 0, 0, 4, FlatHat, false)

  /** The form `Bear::new` starts from: empty text, four rungs, flat hat. */
  const INITIAL_PRE_FIELDS: PreField := PreField("", "", "", 4, FlatHat)

  /** The one sanity check on parsed values: it refuses a submission only
      when the position is 0 AND the start price is not above the dip
      price. */
  predicate Rejected(position: u32, start: u32, dip: u32)
  {
    position <= 0 && start <= dip
  }

  /** What `loading_input` makes of a form: the first text field that does
      not parse gives `NotIntegerError`; parsed values the sanity check
      refuses give `ValueError`; otherwise the submission to commit. */
  function Validate(pre: PreField): Result<Field>
  {
    var position := ParseU32(pre.position);
    var start := ParseU32(pre.startPrice);
    var dip := ParseU32(pre.dipPrice);
    if position.None? || start.None? || dip.None? then Err(NotIntegerError)
    else if Rejected(position.value, start.value, dip.value) then Err(ValueError)
    else Ok(Field(position.value, start.value, dip.value, pre.resolution, pre.model, true))
  }

  /** The theme after a toggle. */
  function Toggled(t: Theme): (u: Theme)
    ensures u != t
  {
    if t == Light then Dark else Light
  }

  /** The running app. */
  class Bear {
    var preFields: PreField
    var fields: Field
    var theme: Theme

    /** What the app keeps true: a committed submission passed the sanity
        check, and until the first one the submission is the initial one. */
    ghost predicate Valid()
      reads this
    {
      && (fields.integrity ==> !Rejected(fields.position, fields.startPrice, fields.dipPrice))
      && (!fields.integrity ==> fields == INITIAL_FIELDS)
    }

    /** `Bear::new`. */
    constructor ()
      ensures fields == INITIAL_FIELDS
      ensures preFields == INITIAL_PRE_FIELDS
      ensures theme == Light
      ensures Valid()
    {
      fields := Field(0, 0, 0, 4, FlatHat, false);
      preFields := PreField("", "", "", 4, FlatHat);
      theme := Light;
    }

    /** `Bear::loading_input`: parses the three text fields of the form in
        order and applies the sanity check; only when both succeed does it
        write the submission, field by field. The form and the theme are
        never written. */
    method LoadingInput() returns (r: Result<()>)
      requires Valid()
      modifies this`fields
      ensures Valid()
      ensures r.Ok? <==> Validate(old(preFields)).Ok?
      ensures r.Err? ==> r.error == Validate(old(preFields)).error && fields == old(fields)
      ensures r.Ok? ==> fields == Validate(old(preFields)).value
    {
      var inputs := preFields;
      var position := ParseU32(inputs.position);
      if position.None? {
        return Err(NotIntegerError);
      }
      var start := ParseU32(inputs.startPrice);
      if start.None? {
        return Err(NotIntegerError);
      }
      var dip := ParseU32(inputs.dipPrice);
      if dip.None? {
        return Err(NotIntegerError);
      }
      if position.value <= 0 && start.value <= dip.value {
        return Err(ValueError);
      }
      fields := fields.(position := position.value);
      fields := fields.(startPrice := start.value);
      fields := fields.(dipPrice := dip.value);
      fields := fields.(resolution := inputs.resolution);
      fields := fields.(model := inputs.model);
      fields := fields.(integrity := true);
      return Ok(());
    }

    /** `Sandbox::update`. Each form message overwrites only its own part of
        the form; `Submit` commits a valid form and otherwise reports the
        panic of `unwrap` on the error, leaving the state as it was;
        `ToggleTheme` flips the theme. */
    method Update(msg: Message) returns (panicked: bool)
      requires Valid()
      modifies this
      ensures Valid()
      ensures panicked <==> msg.Submit? && Validate(old(preFields)).Err?
      ensures !msg.ToggleTheme? ==> theme == old(theme)
      ensures !msg.Submit? ==> fields == old(fields)
      ensures msg.FieldStrChange? ==>
        preFields == old(preFields).(position := msg.position, startPrice := msg.start, dipPrice := msg.dip)
      ensures msg.SliderChange? ==> preFields == old(preFields).(resolution := msg.val)
      ensures msg.ModelSelect? ==> preFields == old(preFields).(model := msg.model)
      ensures msg.Submit? ==> (preFields == old(preFields)
        && fields == (if Validate(old(preFields)).Ok? then Validate(old(preFields)).value else old(fields)))
      ensures msg.ToggleTheme? ==> preFields == old(preFields) && theme == Toggled(old(theme))
    {
      panicked := false;
      match msg {
        case FieldStrChange(position, start, dip) =>
          preFields := preFields.(position := position);
          preFields := preFields.(startPrice := start);
          preFields := preFields.(dipPrice := dip);
        case SliderChange(val) =>
          preFields := preFields.(resolution := val);
        case ModelSelect(model) =>
          preFields := preFields.(model := model);
        case Submit =>
          var r := LoadingInput();
          panicked := r.Err?;
        case ToggleTheme =>
          theme := if theme == Light then Dark else Light;
      }
    }
  }

  // ---------------------------------------------------------------------
  // Properties of the validation

  /** `NotIntegerError` exactly when one of the three text fields does not
      parse as a `u32`. */
  lemma ValidateNotIntegerIff(pre: PreField)
    ensures Validate(pre) == Err(NotIntegerError)
        <==> ParseU32(pre.position).None? || ParseU32(pre.startPrice).None? || ParseU32(pre.dipPrice).None?
  {
  }

  /** `ValueError` exactly when all three parse, the position is 0 and the
      start price is not above the dip price. */
  lemma ValidateValueErrorIff(pre: PreField)
    ensures Validate(pre) == Err(ValueError) <==>
      && ParseU32(pre.position) == Some(0)
      && ParseU32(pre.startPrice).Some? && ParseU32(pre.dipPrice).Some?
      && ParseU32(pre.startPrice).value <= ParseU32(pre.dipPrice).value
  {
  }

  /** An accepted form is committed whole: the parsed numbers, the slider
      value and the model, marked as submitted, and it passes the check. */
  lemma ValidateAccepts(pre: PreField)
    ensures Validate(pre).Ok? ==>
      var f := Validate(pre).value;
      && Some(f.position) == ParseU32(pre.position)
      && Some(f.startPrice) == ParseU32(pre.startPrice)
      && Some(f.dipPrice) == ParseU32(pre.dipPrice)
      && f.resolution == pre.resolution && f.model == pre.model && f.integrity
      && !(f.position == 0 && f.startPrice <= f.dipPrice)
  {
  }

  /** The numerals the examples below type into the form. */
  lemma SmallNumerals()
    ensures ParseU32("0") == Some(0) && ParseU32("1") == Some(1) && ParseU32("5") == Some(5)
    ensures ParseU32("10") == Some(10) && ParseU32("100") == Some(100)
  {
    assert "10"[..1] == "1";
    assert "100"[..2] == "10";
  }

  /** The check is a conjunction: a zero position passes when the start is
      above the dip. */
  lemma ValidateAcceptsZeroPosition()
    ensures Validate(PreField("0", "5", "1", 4, FlatHat)) == Ok(Field(0, 5, 1, 4, FlatHat, true))
  {
    SmallNumerals();
  }

  /** ... and a positive position passes with the start below the dip, a
      range `pyramid_calc` and `flathat_calc` cannot take (`start - dip`
      would underflow). */
  lemma ValidateAcceptsInvertedRange()
    ensures Validate(PreField("100", "5", "10", 4, Pyramid)) == Ok(Field(100, 5, 10, 4, Pyramid, true))
    ensures !LadderPre(5, 10, 4)
  {
    SmallNumerals();
  }

  /** Nor does validation rule out a zero start or dip price: an accepted
      submission can leave both calculators without a rung price to divide
      by. */
  lemma ValidateAcceptsZeroPrices()
    ensures Validate(PreField("5", "0", "0", 4, FlatHat)) == Ok(Field(5, 0, 0, 4, FlatHat, true))
    ensures !FlatPre(0, 0, 4) && !PyramidPre(0, 0, 4)
  {
    SmallNumerals();
  }

  /** ... nor does it look at the resolution: a single rung is accepted,
      for which `start_price - dip_price` would be divided by zero. The
      slider in the view code only offers 4 to 10 rungs, so through the
      user interface this case is not reached; it is a gap in the
      validation, not a crash users can trigger. */
  lemma ValidateAcceptsOneRung()
    ensures Validate(PreField("5", "10", "1", 1, FlatHat)) == Ok(Field(5, 10, 1, 1, FlatHat, true))
    ensures !LadderPre(10, 1, 1)
  {
    SmallNumerals();
  }

  /** Toggling the theme twice restores it. */
  lemma ToggleTwice(t: Theme)
    ensures Toggled(Toggled(t)) == t
  {
  }

  /** Submitting the initial, empty form panics: the empty position does
      not parse. */
  method SubmitOnFreshAppPanics() returns (panicked: bool)
    ensures panicked
  {
    var app := new Bear();
    ParseRejects("");
    panicked := app.Update(Submit);
  }
}
