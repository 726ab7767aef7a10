/** safely_replace_path_suffix (utils.py, lines 5-8): a path that does not end
    with the expected suffix is refused; otherwise the suffix is swapped for
    another one.  The function does the swap with str.replace, which rewrites
    every occurrence of the suffix text in the path, not only the last one. */
module PathUtils {
  import opened Outcome
  import opened PyStr

  /** safely_replace_path_suffix as written: after the suffix check, every
      occurrence of toReplace, found left to right, becomes replacement. */
  function SafelyReplacePathSuffix(path: string, toReplace: string, replacement: string): (r: Result<string>)
    ensures r.Ok? <==> EndsWith(path, toReplace)
    ensures r.Err? ==> r.error == SuffixMismatch(path, toReplace)
  {
    if !EndsWith(path, toReplace) then Err(SuffixMismatch(path, toReplace))
    else Ok(Replace(path, toReplace, replacement))
  }

  /** The suffix swap the name promises: the path without its last
      |toReplace| characters, then replacement. */
  function ReplacePathSuffix(path: string, toReplace: string, replacement: string): (r: Result<string>)
    ensures r.Ok? <==> EndsWith(path, toReplace)
    ensures r.Err? ==> r.error == SuffixMismatch(path, toReplace)
    ensures r.Ok? ==> && EndsWith(r.value, replacement)
                      && |r.value| == |path| - |toReplace| + |replacement|
                      && r.value[..|path| - |toReplace|] == path[..|path| - |toReplace|]
  {
    if !EndsWith(path, toReplace) then Err(SuffixMismatch(path, toReplace))
    else Ok(path[..|path| - |toReplace|] + replacement)
  }

  /** Swapping the suffix back undoes the swap. */
  lemma ReplacePathSuffixUndo(path: string, toReplace: string, replacement: string)
    requires EndsWith(path, toReplace)
    ensures ReplacePathSuffix(ReplacePathSuffix(path, toReplace, replacement).value, replacement, toReplace)
         == Ok(path)
  {
    var swapped := ReplacePathSuffix(path, toReplace, replacement).value;
    assert swapped[..|swapped| - |replacement|] == path[..|path| - |toReplace|];
    assert path == path[..|path| - |toReplace|] + toReplace;
  }

  /** When the suffix text occurs nowhere else in the path, as the scan
      finds it, the function as written does swap just the suffix. */
  lemma AgreeOnLoneSuffix(path: string, toReplace: string, replacement: string)
    requires toReplace != [] && EndsWith(path, toReplace)
    requires forall i :: 0 <= i < |path| - |toReplace| ==> !OccursAt(path, i, toReplace)
    ensures SafelyReplacePathSuffix(path, toReplace, replacement) == ReplacePathSuffix(path, toReplace, replacement)
  {
    var prefix := path[..|path| - |toReplace|];
    assert path == prefix + toReplace;
    ReplaceOnlyAtEnd(prefix, toReplace, replacement);
  }

  /** One step of the left-to-right scan for a one-character pattern. */
  lemma ReplaceCharStep(x: char, rest: string, c: char, replacement: string)
    ensures Replace([x] + rest, [c], replacement)
         == (if x == c then replacement else [x]) + Replace(rest, [c], replacement)
  {
    assert ([x] + rest)[..1] == [x] && ([x] + rest)[1..] == rest;
  }

  /** tests/test_utils.py, lines 5-6, which both versions pass. */
  lemma SuffixExamples()
    ensures SafelyReplacePathSuffix("", "", "") == Ok("")
    ensures SafelyReplacePathSuffix("a/b/c", "c", "d") == Ok("a/b/d")
    ensures ReplacePathSuffix("", "", "") == Ok("")
    ensures ReplacePathSuffix("a/b/c", "c", "d") == Ok("a/b/d")
    ensures SafelyReplacePathSuffix("a/b/c", "b", "d") == Err(SuffixMismatch("a/b/c", "b"))
  {
    ReplaceOneOccurrence();
    assert EndsWith("a/b/c", "c") && !EndsWith("a/b/c", "b");
    assert "a/b/c"[..4] + "d" == "a/b/d";
  }

  /** 'a/b/c'.replace('c', 'd') */
  lemma ReplaceOneOccurrence()
    ensures Replace("a/b/c", "c", "d") == "a/b/d"
  {
    ReplaceCharStep('c', [], 'c', "d");
    assert Replace("c", "c", "d") == "d" by {
      assert "c" == ['c'] + [];
    }
    ReplaceCharStep('/', "c", 'c', "d");
    assert Replace("/c", "c", "d") == "/d" by {
      assert "/c" == ['/'] + "c";
    }
    ReplaceCharStep('b', "/c", 'c', "d");
    assert Replace("b/c", "c", "d") == "b/d" by {
      assert "b/c" == ['b'] + "/c";
    }
    ReplaceCharStep('/', "b/c", 'c', "d");
    assert Replace("/b/c", "c", "d") == "/b/d" by {
      assert "/b/c" == ['/'] + "b/c";
    }
    ReplaceCharStep('a', "/b/c", 'c', "d");
    assert Replace("a/b/c", "c", "d") == "a/b/d" by {
      assert "a/b/c" == ['a'] + "/b/c";
    }
  }

  /** A path whose suffix text also occurs earlier: every occurrence is
      rewritten, so 'a/c/c' becomes 'a/d/d' where the suffix swap gives
      'a/c/d'. */
  lemma EveryOccurrenceReplaced()
    ensures SafelyReplacePathSuffix("a/c/c", "c", "d") == Ok("a/d/d")
    ensures ReplacePathSuffix("a/c/c", "c", "d") == Ok("a/c/d")
  {
    ReplaceTwoOccurrences();
    assert EndsWith("a/c/c", "c");
    assert "a/c/c"[..4] + "d" == "a/c/d";
  }

  /** 'a/c/c'.replace('c', 'd') */
  lemma ReplaceTwoOccurrences()
    ensures Replace("a/c/c", "c", "d") == "a/d/d"
  {
    ReplaceCharStep('c', [], 'c', "d");
    assert Replace("c", "c", "d") == "d" by {
      assert "c" == ['c'] + [];
    }
    ReplaceCharStep('/', "c", 'c', "d");
    assert Replace("/c", "c", "d") == "/d" by {
      assert "/c" == ['/'] + "c";
    }
    ReplaceCharStep('c', "/c", 'c', "d");
    assert Replace("c/c", "c", "d") == "d/d" by {
      assert "c/c" == ['c'] + "/c";
    }
    ReplaceCharStep('/', "c/c", 'c', "d");
    assert Replace("/c/c", "c", "d") == "/d/d" by {
      assert "/c/c" == ['/'] + "c/c";
    }
    ReplaceCharStep('a', "/c/c", 'c', "d");
    assert Replace("a/c/c", "c", "d") == "a/d/d" by {
      assert "a/c/c" == ['a'] + "/c/c";
    }
  }
}
