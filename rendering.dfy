/** The rendering duck: flags that turn off scripts and styles or ask for
    a partial or text-only render, and the options of a text-only render. */
module Rendering {
  import opened Wrappers

  datatype TextOnlyOptions = TextOnlyOptions(htmlTagReplacement: string, allowedHtmlTags: seq<string>)

  datatype RenderingState = RenderingState(
    disableStyles: bool,
    disableScripts: bool,
    renderPartialOnly: bool,
    renderTextOnly: bool,
    renderTextOnlyOptions: TextOnlyOptions)

  const DefaultTextOnlyOptions: TextOnlyOptions := TextOnlyOptions("", [])

  const InitialState: RenderingState := RenderingState(false, false, false, false, DefaultTextOnlyOptions)

  /** The action creators are the constructors. */
  datatype RenderingAction =
    | SetDangerouslyDisableScripts(disableScripts: bool)
    | SetDangerouslyDisableScriptsAndStyles(disableScriptsAndStyles: bool)
    | SetRenderPartialOnly(renderPartialOnly: bool)
    | SetRenderTextOnlyAction(renderTextOnly: bool, options: TextOnlyOptions)
    | OtherRenderingAction

  /** The keys a caller passes to `setRenderTextOnly`; `None` is a key left out. */
  datatype PartialOptions = PartialOptions(htmlTagReplacement: Option<string>, allowedHtmlTags: Option<seq<string>>)

  /** `setRenderTextOnly`: the caller's keys over the defaults. */
  function SetRenderTextOnly(renderTextOnly: bool, options: PartialOptions): (a: RenderingAction)
    ensures a.SetRenderTextOnlyAction? && a.renderTextOnly == renderTextOnly
    ensures a.options.htmlTagReplacement ==
      (if options.htmlTagReplacement.Some? then options.htmlTagReplacement.value else "")
    ensures a.options.allowedHtmlTags ==
      (if options.allowedHtmlTags.Some? then options.allowedHtmlTags.value else [])
  {
    SetRenderTextOnlyAction(renderTextOnly, TextOnlyOptions(
      if options.htmlTagReplacement.Some? then options.htmlTagReplacement.value else DefaultTextOnlyOptions.htmlTagReplacement,
      if options.allowedHtmlTags.Some? then options.allowedHtmlTags.value else DefaultTextOnlyOptions.allowedHtmlTags))
  }

  function Reduce(s: RenderingState, a: RenderingAction): (r: RenderingState)
    ensures a.SetDangerouslyDisableScripts? ==> r == s.(disableScripts := a.disableScripts)
    ensures a.SetDangerouslyDisableScriptsAndStyles? ==>
      r == s.(disableStyles := a.disableScriptsAndStyles, disableScripts := a.disableScriptsAndStyles)
    ensures a.SetRenderPartialOnly? ==> r == s.(renderPartialOnly := a.renderPartialOnly)
    ensures a.SetRenderTextOnlyAction? ==>
      r == s.(renderTextOnly := a.renderTextOnly, renderTextOnlyOptions := a.options)
    ensures a.OtherRenderingAction? ==> r == s
  {
    match a
    case SetDangerouslyDisableScripts(v) => s.(disableScripts := v)
    case SetDangerouslyDisableScriptsAndStyles(v) => s.(disableStyles := v, disableScripts := v)
    case SetRenderPartialOnly(v) => s.(renderPartialOnly := v)
    case SetRenderTextOnlyAction(v, options) => s.(renderTextOnly := v, renderTextOnlyOptions := options)
    case OtherRenderingAction => s
  }

  /** Every action sets fields to values it carries: applying it twice is
      applying it once. */
  lemma ReduceIdempotent(s: RenderingState, a: RenderingAction)
    ensures Reduce(Reduce(s, a), a) == Reduce(s, a)
  {
  }

  /** Actions that set different flags commute. */
  lemma ScriptsAndPartialCommute(s: RenderingState, scripts: bool, partial: bool)
    ensures Reduce(Reduce(s, SetDangerouslyDisableScripts(scripts)), SetRenderPartialOnly(partial))
         == Reduce(Reduce(s, SetRenderPartialOnly(partial)), SetDangerouslyDisableScripts(scripts))
  {
  }

  /** A text-only render requested without options goes back to the default
      options, whatever was set before. */
  lemma TextOnlyWithoutOptionsResets(s: RenderingState, on: bool)
    ensures Reduce(s, SetRenderTextOnly(on, PartialOptions(None, None))).renderTextOnlyOptions == DefaultTextOnlyOptions
  {
  }
}
