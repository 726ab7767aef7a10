/** generate_id (app/utils.py, lines 1-3): the identifier of a page
    component, built from the name of the module that defines it and a
    suffix.  The prefix is the module path after its last '/', with every
    '.py' removed and every '_' turned into '-'. */
module AppUtils {
  import opened PyStr

  /** filename.split('/')[-1].replace('.py', '').replace('_', '-') */
  function IdPrefix(filename: string): (prefix: string)
    ensures '/' !in prefix && '_' !in prefix
  {
    var base := LastPiece(filename, '/');
    var stem := Replace(base, ".py", "");
    ReplaceAllCharacters(base, ".py", "", '/');
    ReplaceAllCharacters(stem, "_", "-", '/');
    ReplaceCharacterRemovesIt(stem, '_', "-");
    Replace(stem, "_", "-")
  }

  /** generate_id: the prefix, a '-', then the suffix. */
  function GenerateId(filename: string, suffix: string): (id: string)
    ensures EndsWith(id, "-" + suffix)
    ensures id[..|id| - |suffix| - 1] == IdPrefix(filename)
    ensures '/' !in id[..|id| - |suffix| - 1] && '_' !in id[..|id| - |suffix| - 1]
  {
    var id := IdPrefix(filename) + "-" + suffix;
    assert id[|id| - |suffix| - 1..] == "-" + suffix;
    id
  }

  /** A file name with no '/', no '.py' and no '_' is its own prefix. */
  lemma PlainNameIsPrefix(filename: string)
    requires '/' !in filename && '_' !in filename
    requires forall i :: 0 <= i < |filename| ==> !OccursAt(filename, i, ".py")
    ensures IdPrefix(filename) == filename
  {
    var base := LastPiece(filename, '/');
    assert base == filename by {
      assert forall i :: 0 <= i < |filename| ==> filename[i] != '/';
      assert filename[|filename| - |base|..] == filename;
    }
    ReplaceWithoutOccurrence(filename, ".py", "");
    forall i | 0 <= i < |filename| ensures !OccursAt(filename, i, "_") {
      assert filename[i] in filename;
      assert filename[i..i + 1][0] == filename[i];
    }
    ReplaceWithoutOccurrence(filename, "_", "-");
  }

  /** The text after a separator that does not occur in it is the last piece. */
  lemma {:induction false} LastPieceAfter(front: string, sep: char, rest: string)
    requires sep !in rest
    ensures LastPiece(front + [sep] + rest, sep) == rest
  {
    var s := front + [sep] + rest;
    if rest != [] {
      var init := rest[..|rest| - 1];
      assert rest[|rest| - 1] in rest && forall c :: c in init ==> c in rest;
      assert s[..|s| - 1] == front + [sep] + init;
      LastPieceAfter(front, sep, init);
      assert rest == init + [rest[|rest| - 1]];
    }
  }

  /** generate_id(__file__, suffix) in a module dir/name.py whose name has no
      '.', '/' or '_': the identifier is name-suffix. */
  lemma ModuleFileId(dir: string, name: string, suffix: string)
    requires '.' !in name && '/' !in name && '_' !in name
    ensures GenerateId(dir + "/" + name + ".py", suffix) == name + "-" + suffix
  {
    var base := name + ".py";
    assert dir + "/" + name + ".py" == dir + ['/'] + base;
    assert '/' !in base by {
      assert forall i :: 0 <= i < |base| ==> base[i] == if i < |name| then name[i] else ".py"[i - |name|];
    }
    LastPieceAfter(dir, '/', base);
    forall i | 0 <= i < |name| ensures !OccursAt(name + ".py", i, ".py") {
      assert name[i] in name;
      assert (name + ".py")[i..i + 3][0] == name[i];
    }
    ReplaceOnlyAtEnd(name, ".py", "");
    assert name + "" == name;
    forall i | 0 <= i < |name| ensures !OccursAt(name, i, "_") {
      assert name[i] in name;
      assert name[i..i + 1][0] == name[i];
    }
    ReplaceWithoutOccurrence(name, "_", "-");
  }
}
