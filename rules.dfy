/** The rules the formatter knows and the template every built-in rule
    follows: format the context's content, then report whether it changed
    and, if so, the rule's name. */
module Rules {
  import opened Types
  import Text
  import IndentationRule
  import LineEndingRule
  import TrailingWhitespaceRule
  import FinalNewlineRule
  import MaxLineLengthRule

  /** The five built-in rules, and a rule that returns its input as it is
      under a name of its own (the shape of the mock rule a plugin may
      supply). */
  datatype Rule =
    | Indentation
    | LineEnding
    | TrailingWhitespace
    | FinalNewline
    | MaxLineLength
    | Passthrough(name: string)
  {
    /** The name a rule is registered and reported under. */
    function Name(): string
    {
      match this
      case Indentation => IndentationRule.Name
      case LineEnding => LineEndingRule.Name
      case TrailingWhitespace => TrailingWhitespaceRule.Name
      case FinalNewline => FinalNewlineRule.Name
      case MaxLineLength => MaxLineLengthRule.Name
      case Passthrough(n) => n
    }
  }

  /** What a rule's `format` returns for a context; every built-in rule
      reads its options from the whole configuration. */
  function FormatOf(rule: Rule, ctx: FormatContext): string
  {
    match rule
    case Indentation => IndentationRule.Format(ctx.content, IndentationRule.OptionsOf(ctx.config))
    case LineEnding => LineEndingRule.Format(ctx.content, LineEndingRule.EndingOf(ctx.config))
    case TrailingWhitespace => TrailingWhitespaceRule.Format(ctx.content)
    case FinalNewline => FinalNewlineRule.Format(ctx.content, FinalNewlineRule.InsertOf(ctx.config))
    case MaxLineLength => MaxLineLengthRule.Formatted(ctx.content, MaxLineLengthRule.OptionsOf(ctx.config))
    case Passthrough(_) => ctx.content
  }

  /** What each built-in rule's `format` is, one case at a time. */
  lemma FormatOfIndentation(ctx: FormatContext)
    ensures FormatOf(Indentation, ctx) == IndentationRule.Format(ctx.content, IndentationRule.OptionsOf(ctx.config))
  {
  }

  lemma FormatOfLineEnding(ctx: FormatContext)
    ensures FormatOf(LineEnding, ctx) == LineEndingRule.Format(ctx.content, LineEndingRule.EndingOf(ctx.config))
  {
  }

  lemma FormatOfTrailingWhitespace(ctx: FormatContext)
    ensures FormatOf(TrailingWhitespace, ctx) == TrailingWhitespaceRule.Format(ctx.content)
  {
  }

  lemma FormatOfFinalNewline(ctx: FormatContext)
    ensures FormatOf(FinalNewline, ctx) == FinalNewlineRule.Format(ctx.content, FinalNewlineRule.InsertOf(ctx.config))
  {
  }

  /** The result of `apply`: the formatted content, `changed` when it
      differs from the input, and the rule's name exactly when it changed. */
  function Applied(rule: Rule, ctx: FormatContext): (res: FormatResult)
    ensures res.content == FormatOf(rule, ctx)
    ensures res.changed <==> res.content != ctx.content
    ensures res.appliedRules == if res.changed then [rule.Name()] else []
  {
    var formatted := FormatOf(rule, ctx);
    FormatResult(formatted, ctx.content != formatted, if ctx.content != formatted then [rule.Name()] else [])
  }

  /** `apply`: the template method. The `max-line-length` rule's `format`
      runs its loops; the others are expressions. */
  method Apply(rule: Rule, ctx: FormatContext) returns (res: FormatResult)
    ensures res == Applied(rule, ctx)
  {
    var formatted: string;
    if rule == MaxLineLength {
      formatted := MaxLineLengthRule.Format(ctx.content, ctx.config);
    } else {
      formatted := FormatOf(rule, ctx);
    }
    res := FormatResult(formatted, ctx.content != formatted, if ctx.content != formatted then [rule.Name()] else []);
  }

  /** A result reports a change exactly when it names a rule, names at
      most one, and an unchanged result carries the input content. */
  lemma AppliedConsistent(rule: Rule, ctx: FormatContext)
    ensures Applied(rule, ctx).changed <==> |Applied(rule, ctx).appliedRules| > 0
    ensures |Applied(rule, ctx).appliedRules| <= 1
    ensures !Applied(rule, ctx).changed ==> Applied(rule, ctx).content == ctx.content
  {
  }

  /** Every rule is idempotent: formatting its own output again changes
      nothing, so a second `apply` reports no change. */
  lemma ApplyTwiceUnchanged(rule: Rule, ctx: FormatContext)
    ensures var once := Applied(rule, ctx);
      !Applied(rule, FormatContext(once.content, ctx.config)).changed
  {
    var c := ctx.content;
    match rule
    case Indentation =>
      IndentationRule.Idempotent(c, IndentationRule.OptionsOf(ctx.config));
    case LineEnding =>
      var e := LineEndingRule.EndingOf(ctx.config);
      LineEndingRule.FormatIsNormalize(c, e);
      LineEndingRule.FormatIsNormalize(LineEndingRule.Format(c, e), e);
      LineEndingRule.Idempotent(c, e);
    case TrailingWhitespace =>
      TrailingWhitespaceRule.Idempotent(c);
    case FinalNewline =>
      FinalNewlineRule.Idempotent(c, FinalNewlineRule.InsertOf(ctx.config));
    case MaxLineLength =>
      MaxLineLengthRule.Idempotent(c, MaxLineLengthRule.OptionsOf(ctx.config));
    case Passthrough(_) =>
  }

  /** The five built-in names are pairwise distinct. */
  lemma BuiltinNamesDistinct()
    ensures Indentation.Name() == "indentation" && LineEnding.Name() == "line-ending"
    ensures TrailingWhitespace.Name() == "trailing-whitespace" && FinalNewline.Name() == "final-newline"
    ensures MaxLineLength.Name() == "max-line-length"
    ensures forall a: Rule, b: Rule | !a.Passthrough? && !b.Passthrough? && a != b :: a.Name() != b.Name()
  {
  }
}
