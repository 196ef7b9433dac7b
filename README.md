# CSS animation builder, modelled in Dafny

This project models the settings-to-CSS pipeline of the CSS animation builder page
(`14-css-animation-builder/script.js`). It has four parts:

- **`getSettings`** reads the ten form controls into a settings record.
  - Numeric fields go through `Number(raw) || default`.
  - The iteration count goes through "strictly positive, else 1".
  - The opacity goes through `Number(raw)` with no default.
  - The easing and the direction go through `raw || default`.
- **`buildCSS`** turns the settings into three texts, each a JavaScript template literal:
  - the `animation:` declaration;
  - the trimmed `@keyframes myAnim` rule, from the identity frame to the chosen transform and opacity;
  - the stylesheet that puts the declaration in a `.my-element` rule, followed by the keyframes.
- **`ensureStyleTag`** finds the `dynamic-keyframes` style element, or creates it once and appends it to the head.
- **`applyAnimation`** performs the page writes:
  - it restarts the preview box's inline `animation` (first `none`, then a layout read, then the shorthand);
  - it replaces the style element's text with the keyframes;
  - it shows the stylesheet in the output area.

Modules:

- `Wrappers`: `Option`.
- `JsString`: `trim()` and ECMAScript white space.
- `JsNumber`: JavaScript numbers and the two conversions the page uses, following the ECMAScript specification:
  - `Number(string)`, which is StringToNumber;
  - `${n}`, which is Number::toString.
- `TemplateLiteral`: evaluating a template literal (`Fill`), and a reader (`Match`) that recovers the substitutions from the text.
- `SettingsReader`: `getSettings`.
- `CssBuilder`: `buildCSS`, plus decoders that read each generated text back.
- `Preview`: the document, the style element, the preview box, the output area, `ensureStyleTag` and `applyAnimation`. These are classes with methods.

A JavaScript number is NaN, an infinity, or an exact decimal `mantissa * 10^-exponent` in canonical form. Rendering and reading are defined exactly, and `Number(`${n}`) == n` is proved for every number. That round trip is what lets the decoders show that the generated CSS determines the settings.

## Model

| member | source | states |
|---|---|---|
| JsString.Trim | 14-css-animation-builder/script.js:89 | the result of `trim()` neither starts nor ends with white space |
| JsString.TrimOnlyWhiteSpace | 14-css-animation-builder/script.js:89 | `trim()` cuts off white space only: the result is a prefix of the text after the leading white space, and everything before and after it is white space |
| JsString.TrimBetweenLineBreaks | 14-css-animation-builder/script.js:78-89 | `trim()` removes exactly the line break before and the one after a text that starts and ends with visible characters |
| JsNumber.ToNumber | 14-css-animation-builder/script.js:21-29 | `Number(raw)` is 0 when the control holds nothing but white space |
| JsNumber.ToString | 14-css-animation-builder/script.js:72-76 | `${n}` is never empty, and it starts with `-` exactly when n is below zero |
| JsNumber.ToNumberToString | 14-css-animation-builder/script.js:72-76 | for every number n, `Number` applied to the text of `${n}` gives n back |
| JsNumber.ToStringIsNumeral | 14-css-animation-builder/script.js:72-76 | `${n}` is never empty and uses only digits, `.`, `-`, `+`, `e` and the letters of `NaN`/`Infinity` |
| JsNumber.ToNumberOfBlank | 14-css-animation-builder/script.js:21-29 | `Number` reads an empty or all-white-space control as 0, not NaN |
| JsNumber.ToNumberOfNonNumeral | 14-css-animation-builder/script.js:21-29 | `Number` reads text starting with a character that cannot begin a numeral as NaN |
| SettingsReader.NumberOr | 14-css-animation-builder/script.js:21-27 | `Number(raw) \|\| d` is d when the parse is NaN or 0 and the parsed value otherwise; it is never NaN, and it is never 0 unless d is |
| SettingsReader.IterationCount | 14-css-animation-builder/script.js:29-30 | the iteration count is always > 0; it is the parsed value exactly when that is > 0, and 1 otherwise |
| SettingsReader.StringOr | 14-css-animation-builder/script.js:28-31 | `raw \|\| fallback` on text is the control's value when that is non-empty and the fallback otherwise; it is empty only when both are |
| SettingsReader.GetSettings | 14-css-animation-builder/script.js:20-45 | each defaulted field (tx, ty, rotate and delay default to 0; scale and duration to 1) is the fallback when the parse is NaN or 0 and the parsed value otherwise. None of them is NaN, and scale and duration are never 0. Opacity is `Number(raw)` with no default. Iterations are positive. Easing and direction take `ease`/`normal` exactly when empty |
| SettingsReader.BlankControls | 14-css-animation-builder/script.js:21-30 | empty or all-white-space translate-x and scale controls give their defaults 0 and 1; such an opacity control gives 0; such an iteration count gives 1 |
| SettingsReader.UnreadableControls | 14-css-animation-builder/script.js:20-45 | with `abc` in every numeric control and empty keyword controls, every numeric field takes its default, the opacity is NaN, and easing and direction are `ease` and `normal` |
| TemplateLiteral.Fill | 14-css-animation-builder/script.js:72-96 | a template literal's value starts with its first literal piece, whatever the substitutions; `TemplateLiteral.MatchFill` is its inverse |
| TemplateLiteral.FillEndsWith | 14-css-animation-builder/script.js:72-96 | a template literal's value ends with its last literal piece, whatever the substitutions |
| TemplateLiteral.MatchFill | 14-css-animation-builder/script.js:72-76 | when each substitution lacks the first character of the piece that follows it, the substitutions can be read back from the template's value |
| TemplateLiteral.FillInjective | 14-css-animation-builder/script.js:91-96 | a template whose substitutions are delimited in that sense gives different texts for different substitutions |
| TemplateLiteral.FillAvoids | 14-css-animation-builder/script.js:72-96 | a character that occurs in no piece and in no substitution does not occur in the value |
| CssBuilder.BuildCss | 14-css-animation-builder/script.js:57-99 | the declaration is `animation: ` + the shorthand + `;`. The keyframes always read back as the identity frame at opacity 1, followed by the settings' transform and opacity. The declaration reads back as the timing fields when the easing is one word. When neither easing nor direction contains a line break, the stylesheet splits back into exactly the returned declaration and keyframes. When both conditions hold, the stylesheet reads back as the whole settings record |
| CssBuilder.AnimationLine | 14-css-animation-builder/script.js:76 | `animationLine` declares the `animation` property, names the `myAnim` rule first, and ends with `;` |
| CssBuilder.Shorthand | 14-css-animation-builder/script.js:110 | the value given to the box's `animation` starts with the name of the `myAnim` rule |
| CssBuilder.ShorthandInDeclaration | 14-css-animation-builder/script.js:76 | the `animation:` declaration is the shorthand `myAnim <duration>s <easing> <delay>s <iterations> <direction>` under the property name, ended by `;` |
| CssBuilder.DeclarationRoundTrip | 14-css-animation-builder/script.js:76 | when the easing is one word, the declaration reads back to exactly the duration, easing, delay, iterations and direction it was built from |
| CssBuilder.ToTransformReadsBack | 14-css-animation-builder/script.js:72 | `toTransform` reads back to exactly the settings' tx, ty, scale and rotate |
| CssBuilder.KeyframeArgs | 14-css-animation-builder/script.js:71-86 | the keyframes template gets four substitutions: the fixed `from` transform, the `from` opacity, `toTransform`, and an opacity text that reads back to the settings' opacity |
| CssBuilder.FromOpacityReads | 14-css-animation-builder/script.js:73 | the `from` frame's opacity substitution reads back as 1 |
| CssBuilder.TransformRoundTrip | 14-css-animation-builder/script.js:72 | `translate(<tx>px, <ty>px) scale(<scale>) rotate(<rotate>deg)` reads back to the four numbers |
| CssBuilder.FromTransformIsIdentity | 14-css-animation-builder/script.js:71-72 | the fixed `from` transform is the transform template applied to the identity (0, 0, 1, 0) |
| CssBuilder.KeyframesText | 14-css-animation-builder/script.js:78-89 | `keyframes` is the template with exactly its outer line breaks taken off by `.trim()`: the rule from `@keyframes` to the closing `}` |
| CssBuilder.KeyframesRoundTrip | 14-css-animation-builder/script.js:71-89 | whatever the settings, the `from` frame reads back as the identity transform at opacity 1 and the `to` frame as the settings' transform and opacity (NaN included) |
| CssBuilder.StylesheetText | 14-css-animation-builder/script.js:91-96 | when neither easing nor direction contains a line break, the stylesheet splits back into exactly the declaration and the keyframes it was built from |
| CssBuilder.CssRoundTrip | 14-css-animation-builder/script.js:91-96 | the stylesheet (the `.my-element` rule, a blank line, the keyframes) reads back to the settings when the easing is one word and neither easing nor direction contains a line break |
| CssBuilder.BuildCssInjective | 14-css-animation-builder/script.js:57-99 | two such settings records that give the same stylesheet are equal |
| CssBuilder.SpacedEasingIsAmbiguous | 14-css-animation-builder/script.js:76 | for any settings and any word, the easing `<word> <delay>s <iterations>` and the easing `<word>` with `<delay>s <iterations> ` put in front of the direction are different settings with the same stylesheet; so the read-back needs a one-word easing |
| CssBuilder.TypicalShorthand | 14-css-animation-builder/script.js:110 | 2 s, `ease-in-out`, 0.5 s, 3 times, `alternate` give the shorthand `myAnim 2s ease-in-out 0.5s 3 alternate` |
| CssBuilder.TypicalTransform | 14-css-animation-builder/script.js:72 | tx 50, ty 0, scale 1.5, rotate 90 give `translate(50px, 0px) scale(1.5) rotate(90deg)` |
| Preview.Element.constructor | 14-css-animation-builder/script.js:50-51 | a created element has the given tag name and id and no text |
| Preview.Document.Lookup | 14-css-animation-builder/script.js:48 | `getElementById` finds nothing exactly when no element carries the id; otherwise it finds an element of the document carrying it |
| Preview.Document.EnsureStyleTag | 14-css-animation-builder/script.js:47-55 | returns the element found by id when there is one, leaving the head as it was. Otherwise it creates an empty `style` element, appends it to the head and returns it. Afterwards the lookup finds the returned element, and exactly one element carries the id if none did before |
| Preview.EnsureStyleTagTwice | 14-css-animation-builder/script.js:47-55 | a second call returns the same element as the first; together the two calls leave the body as it was and add at most one element, the returned one, to the head, and only when the page had none |
| Preview.WriteKeyframes | 14-css-animation-builder/script.js:112-113 | the style element's text becomes the keyframes (replaced, not appended), and no other element's text changes. When there was no style element, the head becomes the old head plus one fresh `style` element |
| Preview.PreviewBox.SetAnimation | 14-css-animation-builder/script.js:106 | the inline `animation` becomes the value, and the write is recorded |
| Preview.PreviewBox.OffsetWidth | 14-css-animation-builder/script.js:108 | reading the width changes neither the width nor the animation, and the layout read is recorded |
| Preview.PreviewBox.Restart | 14-css-animation-builder/script.js:105-110 | the box sees `animation = none`, then a layout read, then the new shorthand, in that order, and ends with the shorthand |
| Preview.Show | 14-css-animation-builder/script.js:106-115 | the box receives `none`, a layout read and the given shorthand, and keeps its width. The style element holds the keyframes: it is the element found before, with the head unchanged, or else a fresh `style` element appended to the head. The output shows the stylesheet, and no other element's text changes |
| Preview.ApplyAnimation | 14-css-animation-builder/script.js:101-116 | the box receives `none`, a layout read, then the shorthand of the current settings. That shorthand is the built declaration without `animation: ` and `;`. The style element holds the built keyframes, the output shows the built stylesheet, and no other element's text changes. The box keeps its width. When the page had no style element, the head gains exactly one fresh `style` element and keeps the rest |

## Left out

- The DOM lookups of the controls, the box and the output (lines 3-18). The controls' values are a parameter of `GetSettings` and `ApplyAnimation`, and the page objects are parameters of the methods.
- The listener wiring and the initial call (lines 118-122 and the end of the file). These are event plumbing with no logic of their own.
- The copy button, `fallbackCopy` and `flashCopyState` (lines 124-159). These are clipboard and timer APIs of the browser.
- What the layout read does to rendering. `Preview.PreviewBox.OffsetWidth` only records that the read happens between the two writes.
- IEEE double rounding and overflow. Numbers are exact decimals, so a control holding more digits than a double keeps them, and `1e400` is finite rather than Infinity.
- JsNumber.ToNumber: values below the smallest double are kept rather than read as 0. `Number("1e-400")` is 0 in JavaScript, so the page takes the default for that field (1 for scale, duration and iterations, 0 elsewhere). The model keeps the tiny value, which is truthy and greater than 0, so `SettingsReader.NumberOr` and `SettingsReader.IterationCount` keep it too.
- Negative zero is identified with zero. Wherever this page looks at a number (`||`, `> 0`, `${}`) -0 behaves as 0.
- `Preview.Document.Lookup` searches the head and then the body. Other parts of a real document are not modelled.
- `Preview.Element.constructor` sets the id at creation. The page sets it right after `createElement` and before inserting the element, and never changes it.
- `CssBuilder.CssRoundTrip`, `CssBuilder.BuildCssInjective`: proved only for a one-word easing and keywords without line breaks. The model assumes the page's easing and direction options are such keywords; the page's markup, which lists them, is not part of this model. `CssBuilder.SpacedEasingIsAmbiguous` shows the first condition cannot be dropped.
- Preview.PreviewBox.SetAnimation: `animation` holds the text assigned, not the style the browser parses from it. A browser keeps the previous value when it cannot parse the new one; the model does not.
- A blank opacity control gives opacity 0, not NaN, because `Number("")` is 0. The model follows the code (`SettingsReader.BlankControls`). Only text that does not parse gives NaN (`SettingsReader.UnreadableControls`).
