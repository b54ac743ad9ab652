/** backend/backend/methods.py: reading a boolean from the environment. */
module Settings {
  import opened Outcomes
  import opened Text

  /** The spellings that count as true once lower-cased. */
  const TRUE_VALUES: seq<string> := ["true", "1"]

  /** get_bool_env, given what os.getenv returned for the variable. */
  function GetBoolEnv(value: Option<string>, default: bool): bool {
    if value.None? then default else Lower(value.value) in TRUE_VALUES
  }

  /** Unset: the default. Set: the default is ignored, and the answer is true
      exactly for "1" and for the four letters of "true" in any case. */
  lemma GetBoolEnvSpec(value: Option<string>, default: bool)
    ensures value.None? ==> GetBoolEnv(value, default) == default
    ensures value.Some? ==> GetBoolEnv(value, default) == GetBoolEnv(value, !default)
    ensures value.Some? ==>
      (GetBoolEnv(value, default) <==> value.value == "1" || (|value.value| == 4 && Lower(value.value) == "true"))
  {
    if value.Some? && Lower(value.value) == "1" {
      assert |value.value| == 1;
      assert LowerChar(value.value[0]) == '1';
      assert value.value == [value.value[0]];
    }
    if value.Some? && value.value == "1" {
      assert Lower(value.value)[0] == '1';
      assert Lower(value.value) == "1";
    }
  }

  /** Some readings: any case of "true" counts; "", "yes", "0" and a padded
      " true" do not, since the value is not trimmed. */
  lemma GetBoolEnvExamples(default: bool)
    ensures GetBoolEnv(Some("TRUE"), false) && GetBoolEnv(Some("True"), false) && GetBoolEnv(Some("1"), false)
    ensures !GetBoolEnv(Some(""), true) && !GetBoolEnv(Some("yes"), true) && !GetBoolEnv(Some("0"), true)
    ensures !GetBoolEnv(Some(" true"), true) && !GetBoolEnv(Some("false"), true)
    ensures GetBoolEnv(None, default) == default
  {
    assert Lower("TRUE") == "true";
    assert Lower("True") == "true";
    assert Lower("1") == "1";
    assert Lower("") == "";
    assert Lower("yes") == "yes";
    assert Lower("0") == "0";
    assert Lower(" true") == " true";
    assert Lower("false") == "false";
  }
}
