/** The two name converters of config.py (lines 24-29): a configuration
    section key such as 'tesseract' names the class TesseractConfig, and the
    class name gives the key back. */
module ConfigNames {
  import opened Outcome
  import opened PyStr

  const ConfigSuffix: string := "Config"

  /** _key_to_class_name: the key with its first character upper-cased, then
      'Config'; the empty key has no first character. */
  function KeyToClassName(key: string): (r: Result<string>)
    ensures r.Ok? <==> key != []
    ensures r.Err? ==> r.error == IndexOutOfRange
    ensures r.Ok? ==> && EndsWith(r.value, ConfigSuffix)
                      && |r.value| == |key| + |ConfigSuffix|
                      && r.value[0] == UpperChar(key[0])
                      && r.value[1..|key|] == key[1..]
  {
    if key == [] then Err(IndexOutOfRange)
    else
      var name := [UpperChar(key[0])] + key[1..] + ConfigSuffix;
      assert name[|name| - |ConfigSuffix|..] == ConfigSuffix;
      Ok(name)
  }

  /** _class_name_to_key: the text before the first 'Config', or the whole
      name when there is none, lower-cased. */
  function ClassNameToKey(className: string): (key: string)
    ensures |key| <= |className|
    ensures key == Lower(className[..|key|])
    ensures forall i :: 0 <= i < |key| ==> !OccursAt(className, i, ConfigSuffix)
    ensures |key| < |className| ==> OccursAt(className, |key|, ConfigSuffix)
  {
    Lower(FirstPiece(className, ConfigSuffix))
  }

  /** A key without capitals that does not start with 'config' meets 'Config'
      in its class name only where the suffix begins. */
  lemma NoEarlierSuffix(key: string, name: string)
    requires key != [] && HasNoCapital(key) && !StartsWith(key, "config")
    requires name == [UpperChar(key[0])] + key[1..] + ConfigSuffix
    ensures forall i :: 0 <= i < |key| ==> !OccursAt(name, i, ConfigSuffix)
  {
    forall i | 0 <= i < |key| ensures !OccursAt(name, i, ConfigSuffix) {
      if i > 0 || key[0] != 'c' {
        assert name[i] != 'C';
        if i + 6 <= |name| {
          assert name[i..i + 6][0] == name[i];
        }
      } else {
        var j: nat;
        if |key| < 6 {
          j := |key|;
          assert name[j] == 'C';
        } else {
          assert key[..6] != "config";
          j :| 1 <= j < 6 && key[j] != "config"[j];
          assert name[j] == key[j];
        }
        assert name[..6][j] != ConfigSuffix[j];
      }
    }
  }

  /** _class_name_to_key undoes _key_to_class_name for a non-empty key
      without capitals that does not start with 'config', as the loaders of
      config.py (lines 36 and 71) rely on. */
  lemma KeyRoundTrip(key: string)
    requires key != [] && HasNoCapital(key) && !StartsWith(key, "config")
    ensures ClassNameToKey(KeyToClassName(key).value) == key
  {
    var name := KeyToClassName(key).value;
    NoEarlierSuffix(key, name);
    var front := FirstPiece(name, ConfigSuffix);
    assert OccursAt(name, |key|, ConfigSuffix) by {
      assert name[|key|..|key| + 6] == ConfigSuffix;
    }
    assert |front| == |key|;
    assert front == [UpperChar(key[0])] + key[1..];
    assert LowerChar(UpperChar(key[0])) == key[0];
    assert Lower(front) == key;
  }

  /** The class names of the two sections of Config. */
  lemma SectionClassNames()
    ensures KeyToClassName("tesseract") == Ok("TesseractConfig")
    ensures KeyToClassName("environment") == Ok("EnvironmentConfig")
    ensures KeyToClassName("") == Err(IndexOutOfRange)
  {
    assert [UpperChar('t')] + "tesseract"[1..] + ConfigSuffix == "TesseractConfig";
    assert [UpperChar('e')] + "environment"[1..] + ConfigSuffix == "EnvironmentConfig";
  }

  /** The keys of the two section classes. */
  lemma SectionKeys()
    ensures ClassNameToKey("TesseractConfig") == "tesseract"
    ensures ClassNameToKey("EnvironmentConfig") == "environment"
  {
    SectionClassNames();
    PlainKey("tesseract");
    PlainKey("environment");
    KeyRoundTrip("tesseract");
    KeyRoundTrip("environment");
  }

  /** A key made of lower-case letters that does not start with 'c'. */
  lemma PlainKey(key: string)
    requires key != [] && key[0] != 'c' && forall i :: 0 <= i < |key| ==> 'a' <= key[i] <= 'z'
    ensures HasNoCapital(key) && !StartsWith(key, "config")
  {
    if |key| >= 6 {
      assert key[..6][0] == key[0];
    }
  }
}
