/** FileReadUtil: building the path of the text file to analyse from the request's
    path parameter, and the outcome of reading it.  The file system is a parameter:
    a map from path strings to file contents, a path that is not a key being a read
    that fails with an IOException. */
module FileReadUtil {
  import opened JavaLang

  const Directory := "fileToRead/"
  const Extension := ".txt"
  const DefaultPath := "fileToRead/target.txt"
  const FailurePrefix := "Failed to read file: "

  /** The text every caller looks for to tell a failed read from file contents. */
  const FailureSentinel := "Failed to read"

  /** constructPath: a present, non-blank path names fileToRead/<path>.txt, without any
      trimming; a null (None) or blank path names the default file. */
  function ConstructPath(path: Option<string>): (filePath: string)
    ensures Directory <= filePath
    ensures |filePath| >= |Directory| + |Extension|
    ensures filePath[|filePath| - |Extension|..] == Extension
  {
    if path.Some? && !IsBlank(path.value) then Directory + path.value + Extension
    else DefaultPath
  }

  /** The part of a constructed path between the directory and the extension. */
  function PathName(filePath: string): string
    requires |filePath| >= |Directory| + |Extension|
  {
    filePath[|Directory|..|filePath| - |Extension|]
  }

  /** For a non-blank path the name can be read back from the constructed path, so
      different non-blank paths give different files (nothing is trimmed). */
  lemma ConstructPathReadsBack(path: string)
    requires !IsBlank(path)
    ensures PathName(ConstructPath(Some(path))) == path
  {
    var p := ConstructPath(Some(path));
    assert p == Directory + path + Extension;
    assert p[|Directory|..|p| - |Extension|] == path;
  }

  lemma ConstructPathInjective(a: string, b: string)
    requires !IsBlank(a) && !IsBlank(b)
    ensures ConstructPath(Some(a)) == ConstructPath(Some(b)) ==> a == b
  {
    ConstructPathReadsBack(a);
    ConstructPathReadsBack(b);
  }

  /** No path, a blank path and the path "target" all name the default file. */
  lemma ConstructPathDefault(blank: string)
    requires IsBlank(blank)
    ensures ConstructPath(None) == DefaultPath
    ensures ConstructPath(Some(blank)) == DefaultPath
    ensures ConstructPath(Some("target")) == DefaultPath
  {
    assert 't' in "target" && !IsJavaWhitespace('t');
  }

  /** fileRead: the file's contents verbatim, or a failure message that always carries
      the sentinel and names the path it failed on. */
  function FileRead(filePath: string, disk: map<string, string>): (text: string)
    ensures filePath in disk ==> text == disk[filePath]
    ensures filePath !in disk ==>
              Contains(text, FailureSentinel) && FailurePrefix <= text && text[|FailurePrefix|..] == filePath
  {
    if filePath in disk then disk[filePath]
    else
      var text := FailurePrefix + filePath;
      assert text[0..|FailureSentinel|] == FailureSentinel;
      ContainsAt(text, FailureSentinel, 0);
      text
  }
}
