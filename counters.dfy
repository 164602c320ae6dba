/** The word and character counters shown under the editor (`updateWordCount`). */
module Counters {
  import opened JsText
  import opened Tokenizer

  /** `text ? text.split(/\s+/).length : 0` on the trimmed text. */
  function WordCount(text: string): nat {
    var t := Trim(text);
    if t == "" then 0 else |SplitOnSpace(t)|
  }

  /** The length of the trimmed text. */
  function CharCount(text: string): (n: nat)
    ensures n <= |text|
    ensures n == 0 <==> AllSpace(text)
  {
    |Trim(text)|
  }

  /**
   * The word count is the number of maximal non-whitespace runs of the
   * text, which is 0 for text that is empty once trimmed.
   */
  lemma WordCountCountsRuns(text: string)
    ensures WordCount(text) == CountKind(Tokenize(text), Word)
    ensures AllSpace(text) ==> WordCount(text) == 0
  {
    var t := Trim(text);
    TrimKeepsWords(text);
    if t != "" {
      SplitOnSpaceCount(t);
    }
  }
}
