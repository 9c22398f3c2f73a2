/** The test-mode switch, kept in the process environment under `TEST_MODE`. */
module Config {
  import opened Text

  const TEST_MODE_VAR := "TEST_MODE"

  /** `str(b)` for a Python boolean. */
  function BoolText(b: bool): string {
    if b then "True" else "False"
  }

  /** `os.getenv("TEST_MODE", "False").lower() == "true"` over the variables of an environment. */
  predicate TestModeOf(vars: map<string, string>) {
    Lower(if TEST_MODE_VAR in vars then vars[TEST_MODE_VAR] else "False") == "true"
  }

  /** `true` in any mix of upper and lower case. */
  predicate SpellsTrue(v: string) {
    |v| == 4 && v[0] in {'t', 'T'} && v[1] in {'r', 'R'} && v[2] in {'u', 'U'} && v[3] in {'e', 'E'}
  }

  /** The test mode is on exactly when the variable is set to `true` in any mix of cases. */
  lemma TestModeSpellings(vars: map<string, string>)
    ensures TestModeOf(vars) <==> TEST_MODE_VAR in vars && SpellsTrue(vars[TEST_MODE_VAR])
  {
    var v := if TEST_MODE_VAR in vars then vars[TEST_MODE_VAR] else "False";
    if TEST_MODE_VAR !in vars {
      assert |Lower(v)| == 5;
    } else if |v| == 4 {
      var l := Lower(v);
      assert l == [LowerChar(v[0]), LowerChar(v[1]), LowerChar(v[2]), LowerChar(v[3])];
    }
  }

  /** An unset variable means production mode. */
  lemma UnsetMeansProduction(vars: map<string, string>)
    requires TEST_MODE_VAR !in vars
    ensures !TestModeOf(vars)
  {
    assert |Lower("False")| == 5;
  }

  /** Writing `str(b)` and reading the mode back gives `b`. */
  lemma SetThenRead(vars: map<string, string>, b: bool)
    ensures TestModeOf(vars[TEST_MODE_VAR := BoolText(b)]) == b
  {
    var l := Lower(BoolText(b));
    if b {
      assert l == [LowerChar('T'), LowerChar('r'), LowerChar('u'), LowerChar('e')];
    } else {
      assert |l| == 5;
    }
  }

  /** The environment variables of the process. */
  class Environment {
    var vars: map<string, string>

    constructor (initial: map<string, string>)
      ensures vars == initial
    {
      vars := initial;
    }

    /** `is_test_mode`. */
    function IsTestMode(): (on: bool)
      reads this
      ensures on ==> TEST_MODE_VAR in vars
    {
      TestModeOf(vars)
    }

    /** `setup_test_mode`: only `TEST_MODE` changes, and the mode then reads back as `testMode`. */
    method SetupTestMode(testMode: bool)
      modifies this
      ensures vars == old(vars)[TEST_MODE_VAR := BoolText(testMode)]
      ensures forall k :: k in old(vars) && k != TEST_MODE_VAR ==> k in vars && vars[k] == old(vars)[k]
      ensures IsTestMode() == testMode
    {
      vars := vars[TEST_MODE_VAR := BoolText(testMode)];
      SetThenRead(old(vars), testMode);
    }
  }
}
