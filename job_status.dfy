/**
 * The status of a job and its text rendering. The operating system's exit
 * status is kept abstract: it is the type parameter `X`, and its own text
 * is the function `show`.
 */
module JobStatuses {

  datatype JobStatus<X> =
    | /** The job has been launched and is still executing. */
      InProgress
    | /** The child process had a problem and cannot be queried. */
      Failed
    | /** The job finished executing; its exit status can be inspected. */
      Done(exit: X)

  /**
   * `Display` for `JobStatus`. The first character names the variant, and a
   * `Done` rendering wraps the exit status's own text in "DONE(" and ")".
   */
  function Render<X>(st: JobStatus<X>, show: X -> string): (r: string)
    ensures |r| > 0
    ensures st.InProgress? <==> r[0] == 'I'
    ensures st.Failed? <==> r[0] == 'F'
    ensures st.Done? <==> r[0] == 'D'
    ensures st.Done? ==>
      |r| == |show(st.exit)| + 6 && r[..5] == "DONE(" && r[5..|r| - 1] == show(st.exit) && r[|r| - 1] == ')'
  {
    match st
    case InProgress => "IN_PROGRESS"
    case Failed => "FAILED"
    case Done(exit) => "DONE(" + show(exit) + ")"
  }

  /** A job is still executing exactly in the `InProgress` state. */
  predicate StillExecuting<X>(st: JobStatus<X>) {
    st.InProgress?
  }

  /** The three renderings, spelled out. */
  lemma RenderShapes<X>(st: JobStatus<X>, show: X -> string)
    ensures st.InProgress? ==> Render(st, show) == "IN_PROGRESS"
    ensures st.Failed? ==> Render(st, show) == "FAILED"
    ensures st.Done? ==> var r := Render(st, show);
      |r| == |show(st.exit)| + 6 && r[..5] == "DONE(" && r[5..|r| - 1] == show(st.exit) && r[|r| - 1] == ')'
  {
  }

  /**
   * The rendering tells the variants apart, and two `Done` renderings are
   * equal only when the exit statuses show the same text.
   */
  lemma RenderDistinguishes<X>(s1: JobStatus<X>, s2: JobStatus<X>, show: X -> string)
    requires Render(s1, show) == Render(s2, show)
    ensures s1.InProgress? <==> s2.InProgress?
    ensures s1.Failed? <==> s2.Failed?
    ensures s1.Done? <==> s2.Done?
    ensures s1.Done? && s2.Done? ==> show(s1.exit) == show(s2.exit)
  {
    var r := Render(s1, show);
    assert r[0] == Render(s2, show)[0];
    RenderShapes(s1, show);
    RenderShapes(s2, show);
    if s1.Done? && s2.Done? {
      assert show(s1.exit) == r[5..|r| - 1] == show(s2.exit);
    }
  }

  /** Only a status that is still executing renders as "IN_PROGRESS". */
  lemma StillExecutingIffRendered<X>(st: JobStatus<X>, show: X -> string)
    ensures StillExecuting(st) <==> Render(st, show) == "IN_PROGRESS"
  {
    if st.Done? {
      assert Render(st, show)[0] == 'D';
    }
  }
}
