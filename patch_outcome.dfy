/** What one instrumentation function does to its target file. */
module PatchOutcome {

  import opened PyText

  /** `Skipped`: the "already applied" marker was found and the function
      returned before writing. `Written(content)`: the file was rewritten with
      `content`. `Crashed(e)`: the function raised `e` and wrote nothing. */
  datatype Outcome = Skipped | Written(content: string) | Crashed(error: PyError)

  /** The file's content after the function ran on `content`. */
  function FileAfter(content: string, o: Outcome): string {
    if o.Written? then o.content else content
  }
}
