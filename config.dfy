/**
 * The environment-driven settings of instance/config.py. The process environment is an
 * explicit map from variable names to values.
 */
module Config {
  import opened Text

  /** The issuers allowed out of the box: three host names, each after ", " but the first. */
  const DefaultAllowedPortals: string :=
    "localhost:8080" + ", " + "gids-hti-ri-portal-java.edia-tst.eu" + ", " + "gids-hti-portal.edia-tst.eu"

  /** The environment value for `key`, or `dflt` when the variable is not set. */
  function EnvGetStr(env: map<string, string>, key: string, dflt: string): (r: string)
    ensures key in env ==> r == env[key]
    ensures key !in env ==> r == dflt
  {
    if key in env then env[key] else dflt
  }

  /**
   * A boolean setting: the value (or the text "True"/"False" standing for the default)
   * lowered and looked up among the accepted spellings of true.
   */
  function EnvGetBool(env: map<string, string>, key: string, dflt: bool): bool {
    Lower(EnvGetStr(env, key, if dflt then "True" else "False")) in {"true", "yes", "1", "y"}
  }

  /** The word `v` is one of `true`, `yes`, `1`, `y` written in any letter case. */
  predicate IsTrueWord(v: string) {
    EqualIgnoringCase(v, "true") || EqualIgnoringCase(v, "yes")
    || EqualIgnoringCase(v, "1") || EqualIgnoringCase(v, "y")
  }

  /**
   * A set variable is true exactly when its value spells true in some letter case; any other
   * value, recognised or not, is false. An unset variable gives the default.
   */
  lemma EnvGetBoolMeaning(env: map<string, string>, key: string, dflt: bool)
    ensures EnvGetBool(env, key, dflt) <==> (if key in env then IsTrueWord(env[key]) else dflt)
  {
    if key in env {
      TrueWordsLowered(env[key]);
    } else {
      TrueWordsLowered("True");
      TrueWordsLowered("False");
      assert EqualIgnoringCase("True", "true");
      assert !SameLetterIgnoringCase("False"[0], "true"[0]);
    }
  }

  /** The lowered value is an accepted spelling exactly when the value spells true in some case. */
  lemma TrueWordsLowered(v: string)
    ensures Lower(v) in {"true", "yes", "1", "y"} <==> IsTrueWord(v)
  {
    LowerMatches(v, "true");
    LowerMatches(v, "yes");
    LowerMatches(v, "1");
    LowerMatches(v, "y");
  }

  /** A set but unrecognised value overrides a true default; so does the empty string. */
  lemma EnvGetBoolUnrecognised(env: map<string, string>, key: string)
    requires key in env && (env[key] == "on" || env[key] == "" || env[key] == "no")
    ensures !EnvGetBool(env, key, true)
  {
    EnvGetBoolMeaning(env, key, true);
    var v := env[key];
    if v == "on" || v == "no" {
      assert !SameLetterIgnoringCase(v[0], 'y');
      assert !SameLetterIgnoringCase(v[0], '1');
    }
  }

  /** The allow-list setting: `HTI_ALLOWED_PORTALS` when set, else the built-in three hosts. */
  function HtiAllowedPortals(env: map<string, string>): (r: string)
    ensures "HTI_ALLOWED_PORTALS" !in env ==> r == DefaultAllowedPortals
  {
    EnvGetStr(env, "HTI_ALLOWED_PORTALS", DefaultAllowedPortals)
  }
}
