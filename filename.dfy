/** Filenames (config/filename.go): a name with any path prefix removed. */
module Filenames {
  import opened Wrappers
  import opened Paths

  /**
   * NewFilename: no name for the empty string, otherwise the text after the
   * last '/': a suffix of the input without '/', empty when the input ends
   * in '/', the whole input when it has no '/'.
   */
  function NewFilename(filename: string): (r: Option<string>)
    ensures r.None? <==> filename == []
    ensures r.Some? ==> '/' !in r.value && |r.value| <= |filename| && r.value == filename[|filename| - |r.value|..]
    ensures r.Some? && filename[|filename| - 1] == '/' ==> r.value == []
    ensures filename != [] && '/' !in filename ==> r == Some(filename)
    ensures r.Some? && |r.value| < |filename| ==> filename[|filename| - |r.value| - 1] == '/'
  {
    if |filename| == 0 then None
    else
      var (d, f) := Split(filename);
      assert filename[|filename| - |f|..] == f by {
        assert filename == d + f;
      }
      Some(f)
  }

  /** Filename.String: "<nil>" for a nil name. */
  function FilenameString(f: Option<string>): (r: string)
    ensures f.None? ==> r == "<nil>"
    ensures f.Some? ==> r == f.value
  {
    if f.None? then "<nil>" else f.value
  }
}
