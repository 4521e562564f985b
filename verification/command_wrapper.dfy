/** The wrapper command line that stages a step's inputs from cloud storage
    before the user's command runs and uploads its outputs afterwards
    (`_generate_command_line`). The user's command, the input path map and
    the output path map come from the component SDK's command resolution,
    which is not part of this model; here they are plain inputs. */
module CommandWrapper {
  import opened Text
  import opened ShellQuoting

  /** Which escape the script uses for paths and directories. The source
      uses `AsWritten`; `Intended` is the shell idiom it was meant to be. */
  datatype Escaping = AsWritten | Intended

  function Escape(e: Escaping, s: string): string {
    match e
    case AsWritten => EscapeAsWritten(s)
    case Intended => ShellEscape(s)
  }

  /** Index of the last `/` in `s`, or `|s|` when there is none. */
  function LastSlash(s: string): (k: nat)
    ensures k <= |s|
    ensures k < |s| ==> s[k] == '/' && NoSlash(s[k + 1..])
    ensures k == |s| ==> NoSlash(s)
  {
    if s == [] then 0
    else if s[|s| - 1] == '/' then |s| - 1
    else
      var k := LastSlash(s[..|s| - 1]);
      if k == |s| - 1 then |s| else k
  }

  /** `str(pathlib.PurePosixPath(path).parent)` for a normalised path: the
      text before the last `/`, `/` for a top-level entry, `.` for a bare
      name. */
  function PosixParent(path: string): (dir: string)
    ensures NoSlash(path) ==> dir == "."
    ensures !NoSlash(path) ==>
      exists name :: NoSlash(name) &&
        ((dir == "/" && path == "/" + name) || (dir != "" && path == dir + "/" + name))
  {
    var k := LastSlash(path);
    if k == |path| then "."
    else if k == 0 then
      assert path == "/" + path[1..];
      "/"
    else
      assert path == path[..k] + "/" + path[k + 1..];
      path[..k]
  }

  /** A line of the staging script, before it is rendered to text. */
  datatype ScriptLine =
    | Fixed(text: string)
    | MakeDir(dir: string)
    | Download(uri: string, path: string)
    | RunUser
    | Upload(path: string, uri: string)

  /** Number of fixed lines the source's triple-quoted block splits into
      (it starts and ends with a newline, so the first and last are empty). */
  const PreludeLength: nat := 16

  /** The fixed lines that make sure a download tool exists and fetch the
      `gcs_copy` binary. The long lines are spelled as concatenations of
      shorter pieces: the verifier checks a property of a long string
      literal character by character, and the lemmas below about lines 8
      and 12 run out of resources on the lines written whole. */
  function PreludeLine(i: nat): string
    requires i < PreludeLength
  {
    if i == 0 then ""
    else if i == 1 then "# Installing wget if it's missing"
    else if i == 2 then "if ! which wget && ! which curl; then"
    else if i == 3 then "  if apt-get update -qq" + " -o=Dpkg::Use-Pty=0; then"
    else if i == 4 then "    apt-get install wget" + " -qq -o=Dpkg::Use-Pty=0"
    else if i == 5 then "  fi"
    else if i == 6 then "fi"
    else if i == 7 then ""
    else if i == 8 then
      "gcs_copy_url=https://github.com/" + "Ark-kun/gcs_copy_go/releases/" + "download/v0.2/gcs_copy-linux-amd64"
    else if i == 9 then "bin_dir=/tmp/kfp_bin/"
    else if i == 10 then "gcs_copy_path=\"${bin_dir}/gcs_copy\""
    else if i == 11 then "mkdir -p \"$bin_dir\""
    else if i == 12 then
      "wget \"$gcs_copy_url\"" + " --output-document \"$gcs_copy_path\"" + " --no-verbose"
      + " || curl \"$gcs_copy_url\"" + " --location" + " --output \"$gcs_copy_path\""
    else if i == 13 then "chmod +x \"$gcs_copy_path\""
    else if i == 14 then "export PATH=$PATH:\"$bin_dir\""
    else ""
  }

  function PreludeLines(): (lines: seq<ScriptLine>)
    ensures |lines| == PreludeLength
    ensures forall i :: 0 <= i < PreludeLength ==> lines[i] == Fixed(PreludeLine(i))
  {
    seq(PreludeLength, i requires 0 <= i < PreludeLength => Fixed(PreludeLine(i)))
  }

  function MakeDirLines(paths: seq<(string, string)>): (lines: seq<ScriptLine>)
    ensures |lines| == |paths|
    ensures forall i :: 0 <= i < |paths| ==> lines[i] == MakeDir(PosixParent(paths[i].0))
  {
    if paths == [] then [] else [MakeDir(PosixParent(paths[0].0))] + MakeDirLines(paths[1..])
  }

  function DownloadLines(ins: seq<(string, string)>): (lines: seq<ScriptLine>)
    ensures |lines| == |ins|
    ensures forall i :: 0 <= i < |ins| ==> lines[i] == Download(ins[i].1, ins[i].0)
  {
    if ins == [] then [] else [Download(ins[0].1, ins[0].0)] + DownloadLines(ins[1..])
  }

  function UploadLines(outs: seq<(string, string)>): (lines: seq<ScriptLine>)
    ensures |lines| == |outs|
    ensures forall i :: 0 <= i < |outs| ==> lines[i] == Upload(outs[i].0, outs[i].1)
  {
    if outs == [] then [] else [Upload(outs[0].0, outs[0].1)] + UploadLines(outs[1..])
  }

  /** The staging script for path maps `ins` and `outs` (path to URI, in
      dictionary order): the prelude, a `mkdir -p` for the parent of every
      input then every output path, the downloads, the user command, the
      uploads. */
  function ScriptLines(ins: seq<(string, string)>, outs: seq<(string, string)>): (lines: seq<ScriptLine>)
    ensures |lines| == PreludeLength + 2 * (|ins| + |outs|) + 1
  {
    PreludeLines() + MakeDirLines(ins + outs) + DownloadLines(ins) + [RunUser] + UploadLines(outs)
  }

  /** Index of the user-command line in `ScriptLines(ins, outs)`. */
  function RunIndex(ins: seq<(string, string)>, outs: seq<(string, string)>): nat {
    PreludeLength + 2 * |ins| + |outs|
  }

  /** A line as text. Paths and directories are escaped; URIs are
      placeholders filled in by the backend and are inserted as they are. */
  function Render(e: Escaping, line: ScriptLine): string {
    match line
    case Fixed(t) => t
    case MakeDir(d) => "mkdir -p '" + Escape(e, d) + "'"
    case Download(uri, path) => "gcs_copy '" + uri + "' '" + Escape(e, path) + "'"
    case RunUser => "\"$0\" \"$@\""
    case Upload(path, uri) => "gcs_copy '" + Escape(e, path) + "' '" + uri + "'"
  }

  function RenderAll(e: Escaping, lines: seq<ScriptLine>): (texts: seq<string>)
    ensures |texts| == |lines|
    ensures forall i :: 0 <= i < |lines| ==> texts[i] == Render(e, lines[i])
  {
    if lines == [] then [] else [Render(e, lines[0])] + RenderAll(e, lines[1..])
  }

  /** The script text handed to `sh -c`: every line followed by `\n`. */
  function Script(e: Escaping, ins: seq<(string, string)>, outs: seq<(string, string)>): string {
    JoinLines(RenderAll(e, ScriptLines(ins, outs)))
  }

  function WrapCommandLine(e: Escaping, user: seq<string>, ins: seq<(string, string)>, outs: seq<(string, string)>): seq<string> {
    if ins == [] && outs == [] then user
    else ["sh", "-ex", "-c", Script(e, ins, outs)] + user
  }

  /** The wrapper command line as the source writes it: unchanged when there
      is nothing to stage, otherwise `sh -ex -c <script>` in front of the
      user's command line, which `sh` receives as `$0` and `$@`. */
  function GenerateCommandLine(user: seq<string>, ins: seq<(string, string)>, outs: seq<(string, string)>): (r: seq<string>)
    ensures ins == [] && outs == [] ==> r == user
    ensures ins != [] || outs != [] ==>
      && |r| == 4 + |user|
      && r[..3] == ["sh", "-ex", "-c"]
      && r[3] == Script(AsWritten, ins, outs)
      && r[4..] == user
  {
    WrapCommandLine(AsWritten, user, ins, outs)
  }

  /** The same command line with the shell idiom for escaping. */
  function GenerateCommandLineIntended(user: seq<string>, ins: seq<(string, string)>, outs: seq<(string, string)>): (r: seq<string>)
    ensures ins == [] && outs == [] ==> r == user
    ensures ins != [] || outs != [] ==>
      && |r| == 4 + |user|
      && r[..3] == ["sh", "-ex", "-c"]
      && r[3] == Script(Intended, ins, outs)
      && r[4..] == user
  {
    WrapCommandLine(Intended, user, ins, outs)
  }

  // ---------------------------------------------------------------------
  // The shape of the script

  /** Line `i` of the script, region by region. */
  ghost function LineAt(ins: seq<(string, string)>, outs: seq<(string, string)>, i: nat): ScriptLine
    requires i < PreludeLength + 2 * (|ins| + |outs|) + 1
  {
    var p := PreludeLength;
    var m := p + |ins| + |outs|;
    var run := RunIndex(ins, outs);
    if i < p then Fixed(PreludeLine(i))
    else if i < p + |ins| then MakeDir(PosixParent(ins[i - p].0))
    else if i < m then MakeDir(PosixParent(outs[i - p - |ins|].0))
    else if i < run then Download(ins[i - m].1, ins[i - m].0)
    else if i == run then RunUser
    else Upload(outs[i - run - 1].0, outs[i - run - 1].1)
  }

  lemma ScriptLineAt(ins: seq<(string, string)>, outs: seq<(string, string)>, i: nat)
    requires i < PreludeLength + 2 * (|ins| + |outs|) + 1
    ensures ScriptLines(ins, outs)[i] == LineAt(ins, outs, i)
  {
    var p := PreludeLength;
    var mk := MakeDirLines(ins + outs);
    var s1 := PreludeLines() + mk;
    var s2 := s1 + DownloadLines(ins);
    var s3 := s2 + [RunUser];
    var lines := s3 + UploadLines(outs);
    assert ScriptLines(ins, outs) == lines;
    if i < |s1| {
      assert lines[i] == s1[i];
      if i >= p {
        assert s1[i] == mk[i - p];
        assert (ins + outs)[i - p] == if i < p + |ins| then ins[i - p] else outs[i - p - |ins|];
      }
    } else if i < |s2| {
      assert lines[i] == s2[i];
    } else if i < |s3| {
      assert lines[i] == s3[i];
    }
  }

  /** After the prelude come exactly `|ins| + |outs|` `mkdir` lines, then
      the downloads, then the single user-command line, then the uploads. */
  lemma ScriptShape(ins: seq<(string, string)>, outs: seq<(string, string)>, i: nat)
    requires i < |ScriptLines(ins, outs)|
    ensures var line := ScriptLines(ins, outs)[i];
      var m := PreludeLength + |ins| + |outs|;
      var run := RunIndex(ins, outs);
      && (line.Fixed? <==> i < PreludeLength)
      && (line.MakeDir? <==> PreludeLength <= i < m)
      && (line.Download? <==> m <= i < run)
      && (line.RunUser? <==> i == run)
      && (line.Upload? <==> run < i)
  {
    ScriptLineAt(ins, outs, i);
  }

  lemma InputPlacement(ins: seq<(string, string)>, outs: seq<(string, string)>, k: nat)
    requires k < |ins|
    ensures var lines := ScriptLines(ins, outs);
      && lines[PreludeLength + k] == MakeDir(PosixParent(ins[k].0))
      && lines[PreludeLength + |ins| + |outs| + k] == Download(ins[k].1, ins[k].0)
  {
    var lines := ScriptLines(ins, outs);
    assert lines[PreludeLength + k] == MakeDir(PosixParent(ins[k].0)) by {
      ScriptLineAt(ins, outs, PreludeLength + k);
    }
    assert lines[PreludeLength + |ins| + |outs| + k] == Download(ins[k].1, ins[k].0) by {
      ScriptLineAt(ins, outs, PreludeLength + |ins| + |outs| + k);
    }
  }

  lemma OutputPlacement(ins: seq<(string, string)>, outs: seq<(string, string)>, k: nat)
    requires k < |outs|
    ensures var lines := ScriptLines(ins, outs);
      && lines[PreludeLength + |ins| + k] == MakeDir(PosixParent(outs[k].0))
      && lines[RunIndex(ins, outs) + 1 + k] == Upload(outs[k].0, outs[k].1)
  {
    var lines := ScriptLines(ins, outs);
    assert lines[PreludeLength + |ins| + k] == MakeDir(PosixParent(outs[k].0)) by {
      ScriptLineAt(ins, outs, PreludeLength + |ins| + k);
    }
    assert lines[RunIndex(ins, outs) + 1 + k] == Upload(outs[k].0, outs[k].1) by {
      ScriptLineAt(ins, outs, RunIndex(ins, outs) + 1 + k);
    }
  }

  /** What each entry contributes: the `mkdir` of its parent directory, and
      its download before the user command or its upload after it. */
  lemma ScriptPlacement(ins: seq<(string, string)>, outs: seq<(string, string)>)
    ensures var lines := ScriptLines(ins, outs);
      var run := RunIndex(ins, outs);
      && lines[..PreludeLength] == PreludeLines()
      && (forall k :: 0 <= k < |ins| ==>
            && lines[PreludeLength + k] == MakeDir(PosixParent(ins[k].0))
            && lines[PreludeLength + |ins| + |outs| + k] == Download(ins[k].1, ins[k].0)
            && PreludeLength + |ins| + |outs| + k < run)
      && (forall k :: 0 <= k < |outs| ==>
            && lines[PreludeLength + |ins| + k] == MakeDir(PosixParent(outs[k].0))
            && lines[run + 1 + k] == Upload(outs[k].0, outs[k].1))
  {
    var lines := ScriptLines(ins, outs);
    assert lines[..PreludeLength] == PreludeLines();
    forall k | 0 <= k < |ins|
      ensures lines[PreludeLength + k] == MakeDir(PosixParent(ins[k].0))
      ensures lines[PreludeLength + |ins| + |outs| + k] == Download(ins[k].1, ins[k].0)
    {
      InputPlacement(ins, outs, k);
    }
    forall k | 0 <= k < |outs|
      ensures lines[PreludeLength + |ins| + k] == MakeDir(PosixParent(outs[k].0))
      ensures lines[RunIndex(ins, outs) + 1 + k] == Upload(outs[k].0, outs[k].1)
    {
      OutputPlacement(ins, outs, k);
    }
  }

  // ---------------------------------------------------------------------
  // Reading the script back

  lemma {:induction false} EscapeNoNewline(e: Escaping, s: string)
    requires NoNewline(s)
    ensures NoNewline(Escape(e, s))
    decreases |s|
  {
    if s != [] {
      assert NoNewline(s[1..]);
      EscapeNoNewline(e, s[1..]);
    }
  }

  lemma PreludeNoNewline(i: nat)
    requires i < PreludeLength
    ensures NoNewline(PreludeLine(i))
  {
    if i == 3 {
      PreludeLine3();
    } else if i == 4 {
      PreludeLine4();
    } else if i == 8 {
      PreludeLine8();
    } else if i == 12 {
      PreludeLine12();
    } else {
      PreludeShortLine(i);
    }
  }

  lemma PreludeShortLine(i: nat)
    requires i < PreludeLength && i != 3 && i != 4 && i != 8 && i != 12
    ensures NoNewline(PreludeLine(i))
  {
    if i == 1 {
      PreludeLine1();
    } else if i == 2 {
      PreludeLine2();
    } else if i == 5 {
      PreludeLine5();
    } else if i == 6 {
      PreludeLine6();
    } else if i == 9 {
      PreludeLine9();
    } else if i == 10 {
      PreludeLine10();
    } else if i == 11 {
      PreludeLine11();
    } else if i == 13 {
      PreludeLine13();
    } else if i == 14 {
      PreludeLine14();
    } else {
      assert PreludeLine(i) == "";
    }
  }

  lemma PreludeLine1()
    ensures NoNewline(PreludeLine(1))
  {
    assert PreludeLine(1) == "# Installing wget if it's missing";
  }

  lemma PreludeLine2()
    ensures NoNewline(PreludeLine(2))
  {
    assert PreludeLine(2) == "if ! which wget && ! which curl; then";
  }

  lemma PreludeLine5()
    ensures NoNewline(PreludeLine(5))
  {
    assert PreludeLine(5) == "  fi";
  }

  lemma PreludeLine6()
    ensures NoNewline(PreludeLine(6))
  {
    assert PreludeLine(6) == "fi";
  }

  lemma PreludeLine9()
    ensures NoNewline(PreludeLine(9))
  {
    assert PreludeLine(9) == "bin_dir=/tmp/kfp_bin/";
  }

  lemma PreludeLine10()
    ensures NoNewline(PreludeLine(10))
  {
    assert PreludeLine(10) == "gcs_copy_path=\"${bin_dir}/gcs_copy\"";
  }

  lemma PreludeLine11()
    ensures NoNewline(PreludeLine(11))
  {
    assert PreludeLine(11) == "mkdir -p \"$bin_dir\"";
  }

  lemma PreludeLine13()
    ensures NoNewline(PreludeLine(13))
  {
    assert PreludeLine(13) == "chmod +x \"$gcs_copy_path\"";
  }

  lemma PreludeLine14()
    ensures NoNewline(PreludeLine(14))
  {
    assert PreludeLine(14) == "export PATH=$PATH:\"$bin_dir\"";
  }

  lemma PreludeLine3()
    ensures NoNewline(PreludeLine(3))
  {
    NoNewlineAppend("  if apt-get update -qq", " -o=Dpkg::Use-Pty=0; then");
  }

  lemma PreludeLine4()
    ensures NoNewline(PreludeLine(4))
  {
    NoNewlineAppend("    apt-get install wget", " -qq -o=Dpkg::Use-Pty=0");
  }

  lemma PreludeLine8()
    ensures NoNewline(PreludeLine(8))
  {
    var a := "gcs_copy_url=https://github.com/";
    NoNewlineAppend(a, "Ark-kun/gcs_copy_go/releases/");
    NoNewlineAppend(a + "Ark-kun/gcs_copy_go/releases/", "download/v0.2/gcs_copy-linux-amd64");
  }

  lemma PreludeLine12()
    ensures NoNewline(PreludeLine(12))
  {
    var a := "wget \"$gcs_copy_url\"";
    var b := a + " --output-document \"$gcs_copy_path\"";
    var c := b + " --no-verbose";
    var d := c + " || curl \"$gcs_copy_url\"";
    var f := d + " --location";
    NoNewlineAppend(a, " --output-document \"$gcs_copy_path\"");
    NoNewlineAppend(b, " --no-verbose");
    NoNewlineAppend(c, " || curl \"$gcs_copy_url\"");
    NoNewlineAppend(d, " --location");
    NoNewlineAppend(f, " --output \"$gcs_copy_path\"");
  }

  ghost predicate EntriesNoNewline(d: seq<(string, string)>) {
    forall k :: 0 <= k < |d| ==> NoNewline(d[k].0) && NoNewline(d[k].1)
  }

  lemma RenderNoNewline(e: Escaping, line: ScriptLine)
    requires line.Fixed? ==> NoNewline(line.text)
    requires line.MakeDir? ==> NoNewline(line.dir)
    requires line.Download? || line.Upload? ==> NoNewline(line.uri) && NoNewline(line.path)
    ensures NoNewline(Render(e, line))
  {
    match line
    case Fixed(_) =>
    case MakeDir(d) =>
      EscapeNoNewline(e, d);
      NoNewlineAppend("mkdir -p '", Escape(e, d));
      NoNewlineAppend("mkdir -p '" + Escape(e, d), "'");
    case Download(uri, path) =>
      EscapeNoNewline(e, path);
      NoNewlineAppend("gcs_copy '", uri);
      NoNewlineAppend("gcs_copy '" + uri, "' '");
      NoNewlineAppend("gcs_copy '" + uri + "' '", Escape(e, path));
      NoNewlineAppend("gcs_copy '" + uri + "' '" + Escape(e, path), "'");
    case RunUser =>
    case Upload(path, uri) =>
      EscapeNoNewline(e, path);
      NoNewlineAppend("gcs_copy '", Escape(e, path));
      NoNewlineAppend("gcs_copy '" + Escape(e, path), "' '");
      NoNewlineAppend("gcs_copy '" + Escape(e, path) + "' '", uri);
      NoNewlineAppend("gcs_copy '" + Escape(e, path) + "' '" + uri, "'");
  }

  lemma ParentNoNewline(path: string)
    requires NoNewline(path)
    ensures NoNewline(PosixParent(path))
  {
    var k := LastSlash(path);
    if 0 < k < |path| {
      assert PosixParent(path) == path[..k];
    }
  }

  /** Each line of the script renders without a newline. */
  lemma LineNoNewline(e: Escaping, ins: seq<(string, string)>, outs: seq<(string, string)>, i: nat)
    requires EntriesNoNewline(ins) && EntriesNoNewline(outs)
    requires i < PreludeLength + 2 * (|ins| + |outs|) + 1
    ensures NoNewline(Render(e, LineAt(ins, outs, i)))
  {
    var p := PreludeLength;
    var m := p + |ins| + |outs|;
    var run := RunIndex(ins, outs);
    if i < p {
      PreludeNoNewline(i);
    } else if i < p + |ins| {
      ParentNoNewline(ins[i - p].0);
    } else if i < m {
      ParentNoNewline(outs[i - p - |ins|].0);
    }
    RenderNoNewline(e, LineAt(ins, outs, i));
  }

  /** When no path or URI contains a newline, the script text consists of
      exactly the rendered lines, each ended by `\n`: reading it back line
      by line gives them again. */
  lemma ScriptReadsBack(e: Escaping, ins: seq<(string, string)>, outs: seq<(string, string)>)
    requires EntriesNoNewline(ins) && EntriesNoNewline(outs)
    ensures SplitLines(Script(e, ins, outs)) == RenderAll(e, ScriptLines(ins, outs))
  {
    var lines := ScriptLines(ins, outs);
    var texts := RenderAll(e, lines);
    forall i | 0 <= i < |texts| ensures NoNewline(texts[i]) {
      ScriptLineAt(ins, outs, i);
      LineNoNewline(e, ins, outs, i);
    }
    SplitJoin(texts);
  }
}
