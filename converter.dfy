/** The AVI to MP4 converter: the output path is the input path with every
    ".avi" replaced by ".mp4", and ffmpeg is an abstract step that may fail. */
module Converter {
  import opened Base

  /** `pattern` occurs in `s` starting at position `i`. */
  predicate OccursAt(s: string, pattern: string, i: int)
  {
    0 <= i && i + |pattern| <= |s| && s[i..i + |pattern|] == pattern
  }

  /** `pattern in s`. */
  predicate Contains(s: string, pattern: string)
  {
    exists i :: 0 <= i <= |s| && OccursAt(s, pattern, i)
  }

  /** `s.replace(pattern, replacement)`: occurrences are found left to right
      and do not overlap; the search resumes after each replaced occurrence. */
  function ReplaceAll(s: string, pattern: string, replacement: string): (r: string)
    requires |pattern| > 0
    ensures |pattern| == |replacement| ==> |r| == |s|
    decreases |s|
  {
    if |s| < |pattern| then s
    else if s[..|pattern|] == pattern then replacement + ReplaceAll(s[|pattern|..], pattern, replacement)
    else [s[0]] + ReplaceAll(s[1..], pattern, replacement)
  }

  /** A string without the pattern is returned unchanged. */
  lemma {:induction false} ReplaceAbsent(s: string, pattern: string, replacement: string)
    requires |pattern| > 0 && !Contains(s, pattern)
    ensures ReplaceAll(s, pattern, replacement) == s
    decreases |s|
  {
    if |s| >= |pattern| {
      assert !OccursAt(s, pattern, 0);
      assert s[0..0 + |pattern|] == s[..|pattern|];
      var t := s[1..];
      if Contains(t, pattern) {
        var i :| 0 <= i <= |t| && OccursAt(t, pattern, i);
        assert s[i + 1..i + 1 + |pattern|] == t[i..i + |pattern|];
        assert OccursAt(s, pattern, i + 1);
      }
      ReplaceAbsent(t, pattern, replacement);
    }
  }

  /** The first ".avi" is replaced and the search resumes after it: with no
      ".avi" before it, `stem + ".avi" + rest` becomes `stem + ".mp4"` followed
      by the replacement of `rest`. */
  lemma {:induction false} ReplaceFirstOccurrence(stem: string, rest: string)
    requires !Contains(stem, ".avi")
    ensures ReplaceAll(stem + ".avi" + rest, ".avi", ".mp4") == stem + ".mp4" + ReplaceAll(rest, ".avi", ".mp4")
    decreases |stem|
  {
    var s := stem + ".avi" + rest;
    if stem == [] {
      assert s[..4] == ".avi" && s[4..] == rest;
    } else {
      assert s[..4] != ".avi" by {
        if |stem| >= 4 {
          assert !OccursAt(stem, ".avi", 0);
          assert stem[0..4] == s[..4];
        } else {
          assert s[..4][|stem|] == '.';
          assert ".avi"[|stem|] != '.';
        }
      }
      var t := stem[1..];
      if Contains(t, ".avi") {
        var i :| 0 <= i <= |t| && OccursAt(t, ".avi", i);
        assert stem[i + 1..i + 1 + 4] == t[i..i + 4];
        assert OccursAt(stem, ".avi", i + 1);
      }
      assert s[1..] == t + ".avi" + rest;
      ReplaceFirstOccurrence(t, rest);
    }
  }

  /** A replaced string that starts with a dot-free word started with it before. */
  lemma {:induction false} DotFreePrefixKept(u: string, w: string)
    requires forall k :: 0 <= k < |w| ==> w[k] != '.'
    ensures |w| <= |u| && ReplaceAll(u, ".avi", ".mp4")[..|w|] == w ==> u[..|w|] == w
    decreases |w|
  {
    if w != [] && |w| <= |u| && |u| >= 4 {
      if u[..4] == ".avi" {
        assert ReplaceAll(u, ".avi", ".mp4") == ".mp4" + ReplaceAll(u[4..], ".avi", ".mp4");
        assert ReplaceAll(u, ".avi", ".mp4")[..|w|][0] == '.' != w[0];
      } else {
        var t := ReplaceAll(u[1..], ".avi", ".mp4");
        assert ReplaceAll(u, ".avi", ".mp4") == [u[0]] + t;
        DotFreePrefixKept(u[1..], w[1..]);
        assert u[..|w|] == [u[0]] + u[1..][..|w| - 1];
        assert ([u[0]] + t)[..|w|] == [u[0]] + t[..|w| - 1];
      }
    }
  }

  /** Every occurrence is replaced, not only a trailing one: no ".avi" is left
      in the output path, not even one formed across a replacement. */
  lemma {:induction false} EveryOccurrenceReplaced(s: string)
    ensures !Contains(ReplaceAll(s, ".avi", ".mp4"), ".avi")
    decreases |s|
  {
    var r := ReplaceAll(s, ".avi", ".mp4");
    if |s| >= 4 && s[..4] == ".avi" {
      var t := ReplaceAll(s[4..], ".avi", ".mp4");
      EveryOccurrenceReplaced(s[4..]);
      assert r == ".mp4" + t;
      assert r[4..] == t;
      forall i | 0 <= i <= |r| ensures !OccursAt(r, ".avi", i) {
        if i >= 4 && i + 4 <= |r| {
          assert r[i..i + 4] == r[4..][i - 4..i];
          assert !OccursAt(t, ".avi", i - 4);
        } else if i + 4 <= |r| {
          assert r[i..i + 4][0] == r[i] && r[i..i + 4][1] == r[i + 1];
        }
      }
    } else if |s| >= 4 {
      var t := ReplaceAll(s[1..], ".avi", ".mp4");
      EveryOccurrenceReplaced(s[1..]);
      assert r == [s[0]] + t;
      forall i | 0 <= i <= |r| ensures !OccursAt(r, ".avi", i) {
        if i >= 1 && i + 4 <= |r| {
          assert r[i..i + 4] == t[i - 1..i - 1 + 4];
          assert !OccursAt(t, ".avi", i - 1);
        } else if i == 0 && 4 <= |r| {
          DotFreePrefixKept(s[1..], "avi");
          assert r[..4] == [s[0]] + t[..3];
          assert r[0..4] == r[..4] && r[..4][1..] == t[..3];
          assert s[..4] == [s[0]] + s[1..][..3];
        }
      }
    }
  }

  /** A path with two extensions has both rewritten: "x.avi.avi" becomes "x.mp4.mp4". */
  lemma DoubleExtensionExample()
    ensures ReplaceAll("x.avi.avi", ".avi", ".mp4") == "x.mp4.mp4"
  {
    assert ReplaceAll(".avi", ".avi", ".mp4") == ".mp4" by {
      assert ".avi"[4..] == [];
    }
    assert ReplaceAll(".avi.avi", ".avi", ".mp4") == ".mp4.mp4" by {
      assert ".avi.avi"[..4] == ".avi" && ".avi.avi"[4..] == ".avi";
    }
    assert "x.avi.avi"[..4] != ".avi" && "x.avi.avi"[1..] == ".avi.avi";
  }

  /** What ffmpeg is asked to do. */
  datatype FfmpegJob = FfmpegJob(input: string, output: string, videoCodec: string, audioCodec: string, overwriteOutput: bool)

  datatype Conversion =
    | FileNotFoundError(path: string)
    | Attempted(job: FfmpegJob, result: Option<string>)

  /** `convert_avi_to_mp4`. `files` is the set of existing paths and
      `ffmpegSucceeds` says whether the ffmpeg run raises. A missing input
      raises before anything is run; otherwise ffmpeg converts to the derived
      path with H.264 video, AAC audio and overwriting enabled, and the derived
      path is returned on success, `None` on failure. */
  function ConvertAviToMp4(aviPath: string, files: set<string>, ffmpegSucceeds: bool): (c: Conversion)
    ensures c.FileNotFoundError? <==> aviPath !in files
    ensures c.FileNotFoundError? ==> c.path == aviPath
    ensures c.Attempted? ==> c.job.input == aviPath && c.job.overwriteOutput
    ensures c.Attempted? ==> c.job.videoCodec == "libx264" && c.job.audioCodec == "aac"
    ensures c.Attempted? ==> |c.job.output| == |aviPath|
    ensures c.Attempted? ==> c.job.output == ReplaceAll(aviPath, ".avi", ".mp4")
    ensures c.Attempted? ==> (c.result == Some(c.job.output) <==> ffmpegSucceeds) && (c.result == None <==> !ffmpegSucceeds)
  {
    if aviPath !in files then FileNotFoundError(aviPath)
    else
      var mp4Path := ReplaceAll(aviPath, ".avi", ".mp4");
      var job := FfmpegJob(aviPath, mp4Path, "libx264", "aac", true);
      Attempted(job, if ffmpegSucceeds then Some(mp4Path) else None)
  }

  /** An existing path without ".avi" is converted onto itself, which the
      overwrite flag allows; an existing "x.avi" is converted to "x.mp4". */
  lemma OutputPaths(aviPath: string, files: set<string>, ffmpegSucceeds: bool)
    requires aviPath in files
    ensures !Contains(aviPath, ".avi") ==>
      ConvertAviToMp4(aviPath, files, ffmpegSucceeds).job.output == aviPath
    ensures forall stem :: aviPath == stem + ".avi" && !Contains(stem, ".avi") ==>
      ConvertAviToMp4(aviPath, files, ffmpegSucceeds).job.output == stem + ".mp4"
  {
    if !Contains(aviPath, ".avi") {
      ReplaceAbsent(aviPath, ".avi", ".mp4");
    }
    forall stem | aviPath == stem + ".avi" && !Contains(stem, ".avi")
      ensures ConvertAviToMp4(aviPath, files, ffmpegSucceeds).job.output == stem + ".mp4"
    {
      ReplaceFirstOccurrence(stem, []);
      assert stem + ".avi" + [] == aviPath;
    }
  }
}
