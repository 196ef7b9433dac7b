/**
 * `buildCSS`: the texts generated from one settings record. There are three:
 * the `animation` declaration, the `@keyframes myAnim` rule running from the
 * identity frame to the chosen transform and opacity, and the stylesheet
 * that puts the declaration in a `.my-element` rule followed by the
 * keyframes. Every text is a template literal over the settings; the
 * decoders below read each text back, and the round-trip lemmas show that
 * the output determines the settings.
 */
module CssBuilder {
  import opened Wrappers
  import opened JsString
  import opened JsNumber
  import opened TemplateLiteral
  import opened SettingsReader

  // ---------------------------------------------------------------------------
  // The templates, piece by piece

  /** `animation: myAnim ${duration}s ${easing} ${delay}s ${iterations} ${direction};` */
  const DeclarationQuasis: seq<string> := ["animation: myAnim ", "s ", " ", "s ", " ", ";"]

  /** The same shorthand without the property name, as written to the preview box's style. */
  const ShorthandQuasis: seq<string> := ["myAnim ", "s ", " ", "s ", " ", ""]

  /** `translate(${tx}px, ${ty}px) scale(${scale}) rotate(${rotate}deg)` */
  const TransformQuasis: seq<string> := ["translate(", "px, ", "px) scale(", ") rotate(", "deg)"]

  const FromTransform: string := "translate(0px, 0px) scale(1) rotate(0deg)"
  const FromOpacity: Number := One

  /** The keyframes template as written, one string per line, with a line break before and after the rule. */
  const KeyframesQuasis: seq<string> := [
    "\n" + "@keyframes myAnim {\n" + "  from {\n" + "    transform: ",
    ";\n" + "    opacity: ",
    ";\n" + "  }\n" + "  to {\n" + "    transform: ",
    ";\n" + "    opacity: ",
    ";\n" + "  }\n" + "}" + "\n"]

  /** The keyframes template without the two line breaks that `trim()` takes off. */
  const KeyframesRuleQuasis: seq<string> := [
    "@keyframes myAnim {\n" + "  from {\n" + "    transform: ",
    ";\n" + "    opacity: ",
    ";\n" + "  }\n" + "  to {\n" + "    transform: ",
    ";\n" + "    opacity: ",
    ";\n" + "  }\n" + "}"]

  /** `.my-element {\n  ${animationLine}\n}\n\n${keyframes}\n` */
  const StylesheetQuasis: seq<string> := [".my-element {\n  ", "\n}\n\n", "\n"]

  // ---------------------------------------------------------------------------
  // What the texts carry

  datatype Timing = Timing(duration: Number, easing: string, delay: Number, iterations: Number, direction: string)

  datatype Transform = Transform(tx: Number, ty: Number, scale: Number, rotate: Number)

  datatype Frame = Frame(transform: Transform, opacity: Number)

  datatype KeyframeRule = KeyframeRule(from: Frame, to: Frame)

  datatype CssOutput = CssOutput(css: string, keyframes: string, animationLine: string)

  const Identity: Transform := Transform(Zero, Zero, One, Zero)

  function TimingOf(s: Settings): Timing {
    Timing(s.duration, s.easing, s.delay, s.iterations, s.direction)
  }

  function TransformOf(s: Settings): Transform {
    Transform(s.tx, s.ty, s.scale, s.rotate)
  }

  // ---------------------------------------------------------------------------
  // Generating

  function TimingArgs(s: Settings): seq<string> {
    [ToString(s.duration), s.easing, ToString(s.delay), ToString(s.iterations), s.direction]
  }

  function TransformArgs(t: Transform): seq<string> {
    [ToString(t.tx), ToString(t.ty), ToString(t.scale), ToString(t.rotate)]
  }

  function TransformText(t: Transform): string {
    Fill(TransformQuasis, TransformArgs(t))
  }

  /** `toTransform`: the settings' translation, scale and rotation as a CSS transform. */
  function ToTransform(s: Settings): string {
    TransformText(TransformOf(s))
  }

  /** `toTransform` reads back to exactly the settings' translation, scale and rotation. */
  lemma ToTransformReadsBack(s: Settings)
    ensures ReadTransform(ToTransform(s)) == Some(TransformOf(s))
  {
    TransformRoundTrip(TransformOf(s));
  }

  /** `animationLine`: a declaration of the `animation` property naming the `myAnim` rule, closed by `;`. */
  function AnimationLine(s: Settings): (line: string)
    ensures "animation: myAnim " <= line && EndsWith(line, ";")
  {
    FillEndsWith(DeclarationQuasis, TimingArgs(s));
    Fill(DeclarationQuasis, TimingArgs(s))
  }

  /** The value `applyAnimation` gives the preview box's `animation` property; it names the `myAnim` rule first. */
  function Shorthand(s: Settings): (value: string)
    ensures "myAnim " <= value
  {
    Fill(ShorthandQuasis, TimingArgs(s))
  }

  /**
   * The four substitutions of the keyframes template: the fixed `from`
   * transform and opacity, then the settings' transform and an opacity text
   * that reads back to the settings' opacity.
   */
  function KeyframeArgs(s: Settings): (args: seq<string>)
    ensures |args| == 4
    ensures args[0] == FromTransform
    ensures args[2] == ToTransform(s)
    ensures ToNumber(args[3]) == s.opacity
  {
    ToNumberToString(s.opacity);
    [FromTransform, ToString(FromOpacity), ToTransform(s), ToString(s.opacity)]
  }

  /** `keyframes`: the template, trimmed, which takes off exactly the line break at each end of it. */
  function KeyframesText(s: Settings): (rule: string)
    ensures rule == Fill(KeyframesRuleQuasis, KeyframeArgs(s))
  {
    TemplateTrimmed(KeyframeArgs(s));
    Trim(Fill(KeyframesQuasis, KeyframeArgs(s)))
  }

  /** `css`: the declaration in a `.my-element` rule, then the keyframes; when neither keyword spans lines, the two parts can be told apart again. */
  function StylesheetText(s: Settings): (css: string)
    ensures SingleLine(s) ==> Match(StylesheetQuasis, css) == Some([AnimationLine(s), KeyframesText(s)])
  {
    var parts := [AnimationLine(s), KeyframesText(s)];
    if SingleLine(s) then
      StylesheetDelimited(s);
      MatchFill(StylesheetQuasis, parts);
      Fill(StylesheetQuasis, parts)
    else
      Fill(StylesheetQuasis, parts)
  }

  /**
   * `buildCSS(settings)`. The keyframes always read back as the identity
   * frame followed by the chosen frame; the declaration reads back as the
   * timing when the easing is one word; the stylesheet splits back into the
   * declaration and the keyframes when neither keyword spans lines; and it
   * reads back as the whole settings record when both hold.
   */
  function BuildCss(s: Settings): (out: CssOutput)
    ensures out.animationLine == "animation: " + Shorthand(s) + ";"
    ensures ReadKeyframes(out.keyframes) == Some(KeyframeRule(Frame(Identity, One), Frame(TransformOf(s), s.opacity)))
    ensures ' ' !in s.easing ==> ReadDeclaration(out.animationLine) == Some(TimingOf(s))
    ensures SingleLine(s) ==> Match(StylesheetQuasis, out.css) == Some([out.animationLine, out.keyframes])
    ensures Unambiguous(s) ==> ReadCss(out.css) == Some(s)
  {
    OutputReadsBack(s);
    CssOutput(StylesheetText(s), KeyframesText(s), AnimationLine(s))
  }

  // ---------------------------------------------------------------------------
  // Reading the texts back

  function ReadDeclaration(line: string): Option<Timing> {
    match Match(DeclarationQuasis, line)
    case None => None
    case Some(a) => Some(Timing(ToNumber(a[0]), a[1], ToNumber(a[2]), ToNumber(a[3]), a[4]))
  }

  function ReadTransform(text: string): Option<Transform> {
    match Match(TransformQuasis, text)
    case None => None
    case Some(a) => Some(Transform(ToNumber(a[0]), ToNumber(a[1]), ToNumber(a[2]), ToNumber(a[3])))
  }

  function ReadKeyframes(text: string): Option<KeyframeRule> {
    match Match(KeyframesRuleQuasis, text)
    case None => None
    case Some(a) =>
      match (ReadTransform(a[0]), ReadTransform(a[2]))
      case (Some(from), Some(to)) => Some(KeyframeRule(Frame(from, ToNumber(a[1])), Frame(to, ToNumber(a[3]))))
      case _ => None
  }

  /** The settings a stylesheet of the generated shape stands for; None for any other text. */
  function ReadCss(css: string): Option<Settings> {
    match Match(StylesheetQuasis, css)
    case None => None
    case Some(a) =>
      match (ReadDeclaration(a[0]), ReadKeyframes(a[1]))
      case (Some(t), Some(k)) =>
        if k.from != Frame(Identity, One) then None
        else
          var to := k.to.transform;
          Some(Settings(to.tx, to.ty, to.scale, to.rotate, k.to.opacity,
                        t.duration, t.delay, t.easing, t.iterations, t.direction))
      case _ => None
  }

  /** Neither keyword spans lines: the condition under which the stylesheet splits back into its two parts. */
  predicate SingleLine(s: Settings) {
    '\n' !in s.easing && '\n' !in s.direction
  }

  /** The easing is one word and neither keyword spans lines: the condition under which the stylesheet can be read back. */
  predicate Unambiguous(s: Settings) {
    ' ' !in s.easing && SingleLine(s)
  }

  // ---------------------------------------------------------------------------
  // Properties

  lemma NumeralAvoids(n: Number, c: char)
    requires !IsNumeralChar(c)
    ensures c !in ToString(n)
  {
    ToStringIsNumeral(n);
  }

  /** The declaration is the box's shorthand under the `animation` property. */
  lemma ShorthandInDeclaration(s: Settings)
    ensures AnimationLine(s) == "animation: " + Shorthand(s) + ";"
  {
    var prefixed := ShorthandQuasis[0 := "animation: " + ShorthandQuasis[0]];
    FillPrepend(ShorthandQuasis, TimingArgs(s), "animation: ");
    FillAppend(prefixed, TimingArgs(s), ";");
    var closed := prefixed[|prefixed| - 1 := prefixed[|prefixed| - 1] + ";"];
    assert forall i | 0 <= i < |closed| :: closed[i] == DeclarationQuasis[i];
    assert closed == DeclarationQuasis;
  }

  lemma DeclarationRoundTrip(s: Settings)
    requires ' ' !in s.easing
    ensures ReadDeclaration(AnimationLine(s)) == Some(TimingOf(s))
  {
    var a := TimingArgs(s);
    DeclarationMatches(s);
    TimingArgsRead(s);
    assert ReadDeclaration(AnimationLine(s)) == Some(Timing(ToNumber(a[0]), a[1], ToNumber(a[2]), ToNumber(a[3]), a[4]));
  }

  lemma TimingArgsRead(s: Settings)
    ensures ToNumber(ToString(s.duration)) == s.duration && ToNumber(ToString(s.delay)) == s.delay
    ensures ToNumber(ToString(s.iterations)) == s.iterations
  {
    ToNumberToString(s.duration);
    ToNumberToString(s.delay);
    ToNumberToString(s.iterations);
  }

  lemma DeclarationMatches(s: Settings)
    requires ' ' !in s.easing
    ensures Match(DeclarationQuasis, AnimationLine(s)) == Some(TimingArgs(s))
  {
    DeclarationDelimited(s);
    MatchFill(DeclarationQuasis, TimingArgs(s));
  }

  lemma DeclarationDelimited(s: Settings)
    requires ' ' !in s.easing
    ensures Delimited(DeclarationQuasis, TimingArgs(s))
  {
    NumeralAvoids(s.duration, 's');
    NumeralAvoids(s.delay, 's');
    NumeralAvoids(s.iterations, ' ');
    var q, a := DeclarationQuasis, TimingArgs(s);
    assert DelimitedAt(q, a, 0) && DelimitedAt(q, a, 1);
    assert DelimitedAt(q, a, 2) && DelimitedAt(q, a, 3);
    forall i | 0 <= i < |a| - 1
      ensures DelimitedAt(q, a, i)
    {
    }
  }

  lemma TransformDelimited(t: Transform)
    ensures Delimited(TransformQuasis, TransformArgs(t))
  {
    var q, a := TransformQuasis, TransformArgs(t);
    NumeralAvoids(t.tx, 'p');
    NumeralAvoids(t.ty, 'p');
    NumeralAvoids(t.scale, ')');
    assert DelimitedAt(q, a, 0) && DelimitedAt(q, a, 1) && DelimitedAt(q, a, 2);
    forall i | 0 <= i < |a| - 1
      ensures DelimitedAt(q, a, i)
    {
    }
  }

  lemma TransformRoundTrip(t: Transform)
    ensures ReadTransform(TransformText(t)) == Some(t)
  {
    var a := TransformArgs(t);
    TransformMatches(t);
    TransformArgsRead(t);
    assert ReadTransform(TransformText(t)) == Some(Transform(ToNumber(a[0]), ToNumber(a[1]), ToNumber(a[2]), ToNumber(a[3])));
  }

  lemma TransformMatches(t: Transform)
    ensures Match(TransformQuasis, TransformText(t)) == Some(TransformArgs(t))
  {
    TransformDelimited(t);
    MatchFill(TransformQuasis, TransformArgs(t));
  }

  lemma TransformArgsRead(t: Transform)
    ensures ToNumber(ToString(t.tx)) == t.tx && ToNumber(ToString(t.ty)) == t.ty
    ensures ToNumber(ToString(t.scale)) == t.scale && ToNumber(ToString(t.rotate)) == t.rotate
  {
    ToNumberToString(t.tx);
    ToNumberToString(t.ty);
    ToNumberToString(t.scale);
    ToNumberToString(t.rotate);
  }

  /** The `from` transform is the identity transform written with the same template as the `to` transform. */
  lemma FromTransformIsIdentity()
    ensures FromTransform == TransformText(Identity)
  {
    TransformSpelled(Identity);
    SmallNumerals();
    IdentityJoined();
  }

  /** No transform text contains `;`, the separator that ends it in the keyframes. */
  lemma TransformAvoidsSemicolon(t: Transform)
    ensures ';' !in TransformText(t)
  {
    TransformQuasisAvoidSemicolon();
    TransformArgsAvoid(t, ';');
    FillAvoids(TransformQuasis, TransformArgs(t), ';');
  }

  lemma FromTransformAvoidsSemicolon()
    ensures ';' !in FromTransform
  {
  }

  lemma TransformQuasisAvoidSemicolon()
    ensures forall i | 0 <= i < |TransformQuasis| :: ';' !in TransformQuasis[i]
  {
  }

  lemma TransformArgsAvoid(t: Transform, c: char)
    requires !IsNumeralChar(c)
    ensures forall i | 0 <= i < |TransformArgs(t)| :: c !in TransformArgs(t)[i]
  {
    NumeralAvoids(t.tx, c);
    NumeralAvoids(t.ty, c);
    NumeralAvoids(t.scale, c);
    NumeralAvoids(t.rotate, c);
  }

  /** The written template is the rule's template with a line break added at each end. */
  lemma KeyframesFraming()
    ensures var framed := KeyframesRuleQuasis[0 := "\n" + KeyframesRuleQuasis[0]];
      framed[|framed| - 1 := framed[|framed| - 1] + "\n"] == KeyframesQuasis
  {
    var framed := KeyframesRuleQuasis[0 := "\n" + KeyframesRuleQuasis[0]];
    var closed := framed[|framed| - 1 := framed[|framed| - 1] + "\n"];
    assert "\n" + KeyframesRuleQuasis[0] == KeyframesQuasis[0];
    assert KeyframesRuleQuasis[4] + "\n" == KeyframesQuasis[4];
    assert forall i | 0 <= i < |closed| :: closed[i] == KeyframesQuasis[i];
    assert closed == KeyframesQuasis;
  }

  /** Whatever the substitutions, `trim()` takes off exactly the line break at each end of the keyframes template. */
  lemma TemplateTrimmed(args: seq<string>)
    requires |args| == |KeyframesRuleQuasis| - 1
    ensures Trim(Fill(KeyframesQuasis, args)) == Fill(KeyframesRuleQuasis, args)
  {
    KeyframesTemplateFramed(args);
    KeyframesRuleEnds(args);
    TrimmedRule(Fill(KeyframesQuasis, args), Fill(KeyframesRuleQuasis, args));
  }

  lemma TrimmedRule(text: string, rule: string)
    requires text == "\n" + rule + "\n"
    requires rule != [] && rule[0] == '@' && rule[|rule| - 1] == '}'
    ensures Trim(text) == rule
  {
    TrimBetweenLineBreaks(rule);
  }

  lemma KeyframesTemplateFramed(args: seq<string>)
    requires |args| == |KeyframesRuleQuasis| - 1
    ensures Fill(KeyframesQuasis, args) == "\n" + Fill(KeyframesRuleQuasis, args) + "\n"
  {
    var framed := KeyframesRuleQuasis[0 := "\n" + KeyframesRuleQuasis[0]];
    FillPrepend(KeyframesRuleQuasis, args, "\n");
    FillAppend(framed, args, "\n");
    KeyframesFraming();
  }

  /** The rule starts with `@` and ends with `}`. */
  lemma KeyframesRuleEnds(args: seq<string>)
    requires |args| == |KeyframesRuleQuasis| - 1
    ensures var rule := Fill(KeyframesRuleQuasis, args);
      rule != [] && rule[0] == '@' && rule[|rule| - 1] == '}'
  {
    var rule := Fill(KeyframesRuleQuasis, args);
    var opening, closing := KeyframesRuleQuasis[0], KeyframesRuleQuasis[4];
    assert opening[0] == '@' && closing[|closing| - 1] == '}';
    FillEndsWith(KeyframesRuleQuasis, args);
    assert rule[|rule| - 1] == rule[|rule| - |closing|..][|closing| - 1];
  }

  /** The keyframes read back as the identity frame at full opacity followed by the chosen transform and opacity. */
  lemma KeyframesRoundTrip(s: Settings)
    ensures ReadKeyframes(KeyframesText(s)) == Some(KeyframeRule(Frame(Identity, One), Frame(TransformOf(s), s.opacity)))
  {
    var a := KeyframeArgs(s);
    KeyframesMatches(s);
    FromTransformReads();
    TransformRoundTrip(TransformOf(s));
    FromOpacityReads(s);
    KeyframesRead(KeyframesText(s), a, Identity, TransformOf(s));
  }

  /** A text that splits into substitutions whose transforms read back reads back as the rule of those frames. */
  lemma KeyframesRead(text: string, a: seq<string>, from: Transform, to: Transform)
    requires Match(KeyframesRuleQuasis, text) == Some(a) && |a| == 4
    requires ReadTransform(a[0]) == Some(from) && ReadTransform(a[2]) == Some(to)
    ensures ReadKeyframes(text) == Some(KeyframeRule(Frame(from, ToNumber(a[1])), Frame(to, ToNumber(a[3]))))
  {
  }

  /** The `from` frame's opacity text reads back as 1. */
  lemma FromOpacityReads(s: Settings)
    ensures ToNumber(KeyframeArgs(s)[1]) == One
  {
    ToNumberToString(FromOpacity);
  }

  lemma KeyframesMatches(s: Settings)
    ensures Match(KeyframesRuleQuasis, KeyframesText(s)) == Some(KeyframeArgs(s))
  {
    KeyframesDelimited(s);
    MatchFill(KeyframesRuleQuasis, KeyframeArgs(s));
  }

  lemma FromTransformReads()
    ensures ReadTransform(FromTransform) == Some(Identity)
  {
    FromTransformIsIdentity();
    TransformRoundTrip(Identity);
  }

  lemma KeyframesDelimited(s: Settings)
    ensures Delimited(KeyframesRuleQuasis, KeyframeArgs(s))
  {
    KeyframesSeparators();
    KeyframeArgsAvoid(s);
    SeparatedDelimited(KeyframesRuleQuasis, KeyframeArgs(s), ';');
  }

  /** Substitutions are delimited when every inner piece starts with the same character c and no substitution holds c. */
  lemma SeparatedDelimited(q: seq<string>, a: seq<string>, c: char)
    requires |q| == |a| + 1
    requires forall i | 1 <= i < |a| :: q[i] != [] && q[i][0] == c
    requires forall i | 0 <= i < |a| :: c !in a[i]
    ensures Delimited(q, a)
  {
    forall i | 0 <= i < |a| - 1
      ensures DelimitedAt(q, a, i)
    {
      assert q[i + 1][0] == c;
    }
  }

  lemma KeyframesSeparators()
    ensures |KeyframesRuleQuasis| == 5
    ensures forall i | 1 <= i < 4 :: KeyframesRuleQuasis[i] != [] && KeyframesRuleQuasis[i][0] == ';'
  {
    var q := KeyframesRuleQuasis;
    assert q[1][0] == ';' && q[2][0] == ';' && q[3][0] == ';';
  }

  lemma KeyframeArgsAvoid(s: Settings)
    ensures |KeyframeArgs(s)| == 4
    ensures forall i | 0 <= i < 4 :: ';' !in KeyframeArgs(s)[i]
  {
    KeyframeArgsSpelled(s);
    FromTransformAvoidsSemicolon();
    NumeralAvoids(FromOpacity, ';');
    TransformAvoidsSemicolon(TransformOf(s));
    NumeralAvoids(s.opacity, ';');
    FourAvoid(KeyframeArgs(s), FromTransform, ToString(FromOpacity), ToTransform(s), ToString(s.opacity), ';');
  }

  lemma FourAvoid(a: seq<string>, x0: string, x1: string, x2: string, x3: string, c: char)
    requires a == [x0, x1, x2, x3] && c !in x0 && c !in x1 && c !in x2 && c !in x3
    ensures |a| == 4 && forall i | 0 <= i < 4 :: c !in a[i]
  {
  }

  lemma KeyframeArgsSpelled(s: Settings)
    ensures KeyframeArgs(s) == [FromTransform, ToString(FromOpacity), ToTransform(s), ToString(s.opacity)]
  {
  }

  lemma CssRoundTrip(s: Settings)
    requires Unambiguous(s)
    ensures ReadCss(StylesheetText(s)) == Some(s)
  {
    DeclarationRoundTrip(s);
    KeyframesRoundTrip(s);
  }

  lemma StylesheetDelimited(s: Settings)
    requires SingleLine(s)
    ensures Delimited(StylesheetQuasis, [AnimationLine(s), KeyframesText(s)])
  {
    DeclarationAvoidsLineBreak(s);
    assert StylesheetQuasis[1][0] == '\n';
    DelimitedPair(StylesheetQuasis, AnimationLine(s), KeyframesText(s));
  }

  lemma OutputReadsBack(s: Settings)
    ensures AnimationLine(s) == "animation: " + Shorthand(s) + ";"
    ensures ReadKeyframes(KeyframesText(s)) == Some(KeyframeRule(Frame(Identity, One), Frame(TransformOf(s), s.opacity)))
    ensures ' ' !in s.easing ==> ReadDeclaration(AnimationLine(s)) == Some(TimingOf(s))
    ensures Unambiguous(s) ==> ReadCss(StylesheetText(s)) == Some(s)
  {
    ShorthandInDeclaration(s);
    KeyframesRoundTrip(s);
    if ' ' !in s.easing {
      DeclarationRoundTrip(s);
    }
    if Unambiguous(s) {
      CssRoundTrip(s);
    }
  }

  lemma DeclarationAvoidsLineBreak(s: Settings)
    requires SingleLine(s)
    ensures '\n' !in AnimationLine(s)
  {
    DeclarationQuasisAvoidLineBreak();
    TimingArgsAvoidLineBreak(s);
    FillAvoids(DeclarationQuasis, TimingArgs(s), '\n');
  }

  lemma DeclarationQuasisAvoidLineBreak()
    ensures forall i | 0 <= i < |DeclarationQuasis| :: '\n' !in DeclarationQuasis[i]
  {
  }

  lemma TimingArgsAvoidLineBreak(s: Settings)
    requires SingleLine(s)
    ensures forall i | 0 <= i < |TimingArgs(s)| :: '\n' !in TimingArgs(s)[i]
  {
    NumeralAvoids(s.duration, '\n');
    NumeralAvoids(s.delay, '\n');
    NumeralAvoids(s.iterations, '\n');
  }

  /** Distinct settings without separators in their keywords give distinct stylesheets. */
  lemma BuildCssInjective(s1: Settings, s2: Settings)
    requires Unambiguous(s1) && Unambiguous(s2)
    requires BuildCss(s1).css == BuildCss(s2).css
    ensures s1 == s2
  {
    CssRoundTrip(s1);
    CssRoundTrip(s2);
  }

  predicate Typical(s: Settings) {
    s == Settings(Finite(50, 0), Zero, Finite(15, 1), Finite(90, 0), Finite(5, 1),
                  Finite(2, 0), Finite(5, 1), "ease-in-out", Finite(3, 0), "alternate")
  }

  /** A typical animation's shorthand: 2 s, eased both ways, after half a second, three times, alternating. */
  lemma TypicalShorthand(s: Settings)
    requires Typical(s)
    ensures Shorthand(s) == "myAnim 2s ease-in-out 0.5s 3 alternate"
  {
    ShorthandSpelled(s);
    TimingNumerals();
    TypicalShorthandJoined();
  }

  /** The same animation's target transform: 50 px to the right, 1.5 times larger, a quarter turn. */
  lemma TypicalTransform(s: Settings)
    requires Typical(s)
    ensures ToTransform(s) == "translate(50px, 0px) scale(1.5) rotate(90deg)"
  {
    TransformSpelled(TransformOf(s));
    TransformNumerals();
    TypicalTransformJoined();
  }

  /**
   * For any settings and any word, the easing `<word> <delay>s <iterations>`
   * and the easing `<word>` with `<delay>s <iterations> ` put in front of the
   * direction are different settings with the same stylesheet. So reading
   * the stylesheet back needs a one-word easing.
   */
  lemma SpacedEasingIsAmbiguous(s: Settings, word: string)
    ensures var moved := ToString(s.delay) + "s " + ToString(s.iterations);
      var s1 := s.(easing := word + " " + moved);
      var s2 := s.(easing := word, direction := moved + " " + s.direction);
      s1 != s2 && BuildCss(s1).css == BuildCss(s2).css
  {
    var moved := ToString(s.delay) + "s " + ToString(s.iterations);
    var s1 := s.(easing := word + " " + moved);
    var s2 := s.(easing := word, direction := moved + " " + s.direction);
    assert |s1.easing| != |s2.easing|;
    SpacedEasingShorthands(s, word);
    ShorthandInDeclaration(s1);
    ShorthandInDeclaration(s2);
    assert KeyframeArgs(s1) == KeyframeArgs(s2);
  }

  lemma SpacedEasingShorthands(s: Settings, word: string)
    ensures var moved := ToString(s.delay) + "s " + ToString(s.iterations);
      Shorthand(s.(easing := word + " " + moved)) == Shorthand(s.(easing := word, direction := moved + " " + s.direction))
  {
    var moved := ToString(s.delay) + "s " + ToString(s.iterations);
    var s1 := s.(easing := word + " " + moved);
    var s2 := s.(easing := word, direction := moved + " " + s.direction);
    ShorthandSpelled(s1);
    ShorthandSpelled(s2);
    WordsMoved(ToString(s.duration), word, ToString(s.delay), ToString(s.iterations), s.direction);
  }

  /** The string algebra behind SpacedEasingIsAmbiguous: the same words, cut in two different places. */
  lemma WordsMoved(d: string, word: string, l: string, i: string, r: string)
    ensures var moved := l + "s " + i;
      ("myAnim " + d) + (("s " + (word + " " + moved)) + ((" " + l) + (("s " + i) + ((" " + r) + ""))))
      == ("myAnim " + d) + (("s " + word) + ((" " + l) + (("s " + i) + ((" " + (moved + " " + r)) + ""))))
  {
    var moved := l + "s " + i;
    var rest := (" " + moved) + (" " + r);
    assert (" " + r) + "" == " " + r;
    assert (" " + (moved + " " + r)) + "" == " " + (moved + " " + r);
    assert (" " + l) + (("s " + i) + (" " + r)) == rest;
    assert "s " + (word + " " + moved) == ("s " + word) + (" " + moved);
    assert (" " + l) + (("s " + i) + (" " + (moved + " " + r))) == (" " + moved) + rest;
    assert (("s " + word) + (" " + moved)) + rest == ("s " + word) + ((" " + moved) + rest);
  }

  // ---------------------------------------------------------------------------
  // Concrete texts
  //
  // Evaluating a whole template over literal arguments in one proof costs the
  // verifier a great deal, so each concrete text above is proved in three
  // steps: the template written out piece by piece over its substitutions
  // (ShorthandSpelled, TransformSpelled), the rendering of each number on its
  // own (the Numeral lemmas), and the joining of the literal pieces (the
  // Joined lemmas).

  /** The shorthand written out piece by piece. */
  lemma ShorthandSpelled(s: Settings)
    ensures Shorthand(s) == ("myAnim " + ToString(s.duration)) + (("s " + s.easing) + ((" " + ToString(s.delay))
      + (("s " + ToString(s.iterations)) + ((" " + s.direction) + ""))))
  {
    FillFive(ShorthandQuasis, TimingArgs(s));
  }

  /** The transform written out piece by piece. */
  lemma TransformSpelled(t: Transform)
    ensures TransformText(t) == ("translate(" + ToString(t.tx)) + (("px, " + ToString(t.ty))
      + (("px) scale(" + ToString(t.scale)) + ((") rotate(" + ToString(t.rotate)) + "deg)")))
  {
    FillFour(TransformQuasis, TransformArgs(t));
  }

  lemma TypicalShorthandJoined()
    ensures ("myAnim " + "2") + (("s " + "ease-in-out") + ((" " + "0.5") + (("s " + "3") + ((" " + "alternate") + ""))))
      == "myAnim 2s ease-in-out 0.5s 3 alternate"
  {
  }

  lemma TypicalTransformJoined()
    ensures ("translate(" + "50") + (("px, " + "0") + (("px) scale(" + "1.5") + ((") rotate(" + "90") + "deg)")))
      == "translate(50px, 0px) scale(1.5) rotate(90deg)"
  {
  }

  lemma IdentityJoined()
    ensures ("translate(" + "0") + (("px, " + "0") + (("px) scale(" + "1") + ((") rotate(" + "0") + "deg)"))) == FromTransform
  {
  }

  lemma FillFour(q: seq<string>, a: seq<string>)
    requires |q| == 5 && |a| == 4
    ensures Fill(q, a) == (q[0] + a[0]) + ((q[1] + a[1]) + ((q[2] + a[2]) + ((q[3] + a[3]) + q[4])))
  {
    assert Fill(q[4..], a[4..]) == q[4];
    assert Fill(q[3..], a[3..]) == (q[3] + a[3]) + q[4];
    assert Fill(q[2..], a[2..]) == (q[2] + a[2]) + Fill(q[3..], a[3..]);
    assert Fill(q[1..], a[1..]) == (q[1] + a[1]) + Fill(q[2..], a[2..]);
  }

  lemma FillFive(q: seq<string>, a: seq<string>)
    requires |q| == 6 && |a| == 5
    ensures Fill(q, a) == (q[0] + a[0]) + ((q[1] + a[1]) + ((q[2] + a[2]) + ((q[3] + a[3]) + ((q[4] + a[4]) + q[5]))))
  {
    assert Fill(q[5..], a[5..]) == q[5];
    assert Fill(q[4..], a[4..]) == (q[4] + a[4]) + q[5];
    assert Fill(q[3..], a[3..]) == (q[3] + a[3]) + Fill(q[4..], a[4..]);
    assert Fill(q[2..], a[2..]) == (q[2] + a[2]) + Fill(q[3..], a[3..]);
    assert Fill(q[1..], a[1..]) == (q[1] + a[1]) + Fill(q[2..], a[2..]);
  }

  lemma TimingNumerals()
    ensures ToString(Finite(2, 0)) == "2" && ToString(Finite(5, 1)) == "0.5" && ToString(Finite(3, 0)) == "3"
  {
    Numeral2();
    Numeral05();
    Numeral3();
  }

  lemma TransformNumerals()
    ensures ToString(Finite(50, 0)) == "50" && ToString(Zero) == "0"
    ensures ToString(Finite(15, 1)) == "1.5" && ToString(Finite(90, 0)) == "90"
  {
    Numeral50();
    Numeral15();
    Numeral90();
    SmallNumerals();
  }

  lemma SmallNumerals()
    ensures ToString(Zero) == "0" && ToString(One) == "1"
  {
    Numeral1();
  }

  lemma Numeral1()
    ensures ToString(One) == "1"
  {
  }

  lemma Numeral2()
    ensures ToString(Finite(2, 0)) == "2"
  {
  }

  lemma Numeral3()
    ensures ToString(Finite(3, 0)) == "3"
  {
  }

  lemma Numeral05()
    ensures ToString(Finite(5, 1)) == "0.5"
  {
  }

  lemma Numeral15()
    ensures ToString(Finite(15, 1)) == "1.5"
  {
  }

  lemma Numeral50()
    ensures ToString(Finite(50, 0)) == "50"
  {
  }

  lemma Numeral90()
    ensures ToString(Finite(90, 0)) == "90"
  {
  }
}
