/** String helpers with the meaning of the Python `str` methods the glue
    code uses: `startswith`, `endswith`, `lower`, and joining lines. */
module Text {
  import opened Results


  predicate StartsWith(s: string, prefix: string) {
    |prefix| <= |s| && s[..|prefix|] == prefix
  }

  predicate EndsWith(s: string, suffix: string) {
    |suffix| <= |s| && s[|s| - |suffix|..] == suffix
  }

  /** `str.lower()` restricted to ASCII: upper-case ASCII letters map to
      lower case, every other character is kept. */
  function LowerChar(c: char): (l: char)
    ensures 'A' <= c <= 'Z' ==> 'a' <= l <= 'z'
    ensures !('A' <= c <= 'Z') ==> l == c
  {
    if 'A' <= c <= 'Z' then (c as int - 'A' as int + 'a' as int) as char else c
  }

  function Lower(s: string): (r: string)
    ensures |r| == |s|
    ensures forall i :: 0 <= i < |s| ==> r[i] == LowerChar(s[i])
  {
    if s == [] then [] else [LowerChar(s[0])] + Lower(s[1..])
  }

  /** `''.join(line + '\n' for line in lines)`: every line is terminated. */
  function JoinLines(lines: seq<string>): string {
    if lines == [] then [] else lines[0] + "\n" + JoinLines(lines[1..])
  }

  /** Position of the first `c` in `s`, or `|s|` when there is none. */
  function IndexOf(s: string, c: char): (i: nat)
    ensures i <= |s|
    ensures i < |s| ==> s[i] == c
    ensures forall j :: 0 <= j < i ==> s[j] != c
  {
    if s == [] then 0 else if s[0] == c then 0 else 1 + IndexOf(s[1..], c)
  }

  /** Reads back newline-terminated lines; an unterminated tail is a last
      line of its own. This is the reader the wrapper script is parsed by. */
  function SplitLines(s: string): seq<string>
    decreases |s|
  {
    if s == [] then []
    else
      var i := IndexOf(s, '\n');
      if i == |s| then [s] else [s[..i]] + SplitLines(s[i + 1..])
  }

  predicate NoNewline(s: string) {
    forall i :: 0 <= i < |s| ==> s[i] != '\n'
  }

  lemma NoNewlineAppend(a: string, b: string)
    requires NoNewline(a) && NoNewline(b)
    ensures NoNewline(a + b)
  {
    forall i | 0 <= i < |a + b| ensures (a + b)[i] != '\n' {
      if i < |a| {
        assert (a + b)[i] == a[i];
      } else {
        assert (a + b)[i] == b[i - |a|];
      }
    }
  }

  /** A newline-free line followed by `\n` is read back as one line. */
  lemma SplitLinesFront(line: string, rest: string)
    requires NoNewline(line)
    ensures SplitLines(line + "\n" + rest) == [line] + SplitLines(rest)
  {
    var s := line + "\n" + rest;
    IndexOfAfterLine(line, rest);
    assert s[..|line|] == line;
    assert s[|line| + 1..] == rest;
  }

  /** Joining newline-free lines and reading them back gives the same
      lines: the script has exactly the lines it was built from. */
  lemma {:induction false} SplitJoin(lines: seq<string>)
    requires forall k :: 0 <= k < |lines| ==> NoNewline(lines[k])
    ensures SplitLines(JoinLines(lines)) == lines
  {
    if lines != [] {
      var rest := lines[1..];
      assert SplitLines(JoinLines(lines)) == [lines[0]] + SplitLines(JoinLines(rest)) by {
        assert JoinLines(lines) == lines[0] + "\n" + JoinLines(rest);
        SplitLinesFront(lines[0], JoinLines(rest));
      }
      assert SplitLines(JoinLines(rest)) == rest by {
        assert forall k :: 0 <= k < |rest| ==> NoNewline(rest[k]) by {
          forall k | 0 <= k < |rest| ensures NoNewline(rest[k]) {
            assert rest[k] == lines[k + 1];
          }
        }
        SplitJoin(rest);
      }
      assert lines == [lines[0]] + rest;
    }
  }

  /** `s` starting with `p` is `p` followed by the rest. */
  lemma PrefixSplit(s: string, p: string)
    requires StartsWith(s, p)
    ensures s == p + s[|p|..]
  {
  }

  predicate NoSlash(s: string) {
    forall i :: 0 <= i < |s| ==> s[i] != '/'
  }

  /** Reads `url` as `scheme`, a host running up to the first `/`, then
      `middle`, a name and `suffix`. */
  function SplitUrl(url: string, scheme: string, middle: string, suffix: string): (r: Option<(string, string)>)
    ensures r.Some? ==> url == scheme + r.value.0 + middle + r.value.1 + suffix
  {
    if !StartsWith(url, scheme) then None
    else
      var rest := url[|scheme|..];
      var i := IndexOf(rest, '/');
      var host, tail := rest[..i], rest[i..];
      if StartsWith(tail, middle) && EndsWith(tail, suffix) && |middle| + |suffix| <= |tail| then
        var name := tail[|middle|..|tail| - |suffix|];
        assert url == scheme + host + middle + name + suffix by {
          AffixSplit(tail, middle, suffix);
          PrefixSplit(url, scheme);
          assert rest == host + tail;
          ConcatRegroup(scheme, host, middle, name, suffix);
        }
        Some((host, name))
      else None
  }

  lemma ConcatRegroup(a: string, b: string, c: string, d: string, e: string)
    ensures a + (b + (c + d + e)) == a + b + c + d + e
  {
  }

  /** A host without `/` followed by a `middle` that starts with `/` reads
      back as it was written. */
  lemma SplitUrlRoundTrip(scheme: string, host: string, middle: string, name: string, suffix: string)
    requires NoSlash(host) && middle != [] && middle[0] == '/'
    ensures SplitUrl(scheme + host + middle + name + suffix, scheme, middle, suffix) == Some((host, name))
  {
    var url := scheme + host + middle + name + suffix;
    assert url[..|scheme|] == scheme;
    var rest := url[|scheme|..];
    var tail := middle + name + suffix;
    assert rest == host + tail;
    assert IndexOf(rest, '/') == |host| by {
      assert rest[|host|] == '/';
      assert forall k :: 0 <= k < |host| ==> rest[k] != '/';
    }
    assert rest[|host|..] == tail;
    assert tail[..|middle|] == middle;
    assert tail[|tail| - |suffix|..] == suffix;
    assert tail[|middle|..|tail| - |suffix|] == name;
  }

  /** `s` starting with `a` and ending with `b`, disjointly, is `a`, the
      middle and `b`. */
  lemma AffixSplit(s: string, a: string, b: string)
    requires StartsWith(s, a) && EndsWith(s, b) && |a| + |b| <= |s|
    ensures s == a + s[|a|..|s| - |b|] + b
  {
    assert s == s[..|a|] + s[|a|..|s| - |b|] + s[|s| - |b|..];
  }

  lemma {:induction false} IndexOfAfterLine(line: string, rest: string)
    requires NoNewline(line)
    ensures IndexOf(line + "\n" + rest, '\n') == |line|
  {
    var s := line + "\n" + rest;
    assert s[|line|] == '\n';
    assert forall j :: 0 <= j < |line| ==> s[j] == line[j];
  }

  /** The joined script is the lines' total length plus one newline each. */
  lemma {:induction false} JoinLinesLength(lines: seq<string>)
    ensures |JoinLines(lines)| >= |lines|
    ensures lines != [] ==> JoinLines(lines)[|JoinLines(lines)| - 1] == '\n'
  {
    if lines != [] {
      JoinLinesLength(lines[1..]);
    }
  }
}
