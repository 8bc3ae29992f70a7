/**
 * The text shown on the analysis screen: the narrative generator's answer,
 * or a fixed message when it failed or answered with nothing.
 */
module Analysis {
  import opened Optional

  const FallbackMessage: string := "分析失敗，但你們的默契我們都看在眼底。"

  /** `result || fallback`: an empty answer counts as a failure too. */
  function AnalysisText(result: Option<string>): (text: string)
    ensures result.Some? && result.value != "" ==> text == result.value
    ensures result.None? || result.value == "" ==> text == FallbackMessage
    ensures text != ""
  {
    if result.Some? && result.value != "" then result.value else FallbackMessage
  }
}
