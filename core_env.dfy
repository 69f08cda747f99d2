/** Environment validation of the core package (packages/core/src/env.ts): the ChromaDB
    configuration is tried first, then the SQLite one. The environment is a map from variable
    names to values (an undefined variable is an absent key); a parsed configuration holds
    the schema's keys only, because `z.object(...).safeParse` drops every other key. */
module CoreEnv {
  import opened Wrappers
  import opened Strings

  datatype Kind = Chroma | Sqlite

  datatype ValidatedEnv = ValidatedEnv(config: map<string, string>, kind: Kind)

  /** The keys of the ChromaDB schema, in schema order: the base key, then the extension. */
  const ChromaKeys: seq<string> :=
    ["ANTHROPIC_API_KEY", "CHROMA_API_KEY", "CHROMA_TENANT", "CHROMA_DATABASE", "OPENAI_API_KEY"]

  /** `z.string().min(1)` accepts the variable. */
  predicate Filled(env: map<string, string>, key: string) {
    key in env && env[key] != ""
  }

  predicate AllFilled(env: map<string, string>, keys: seq<string>) {
    forall i :: 0 <= i < |keys| ==> Filled(env, keys[i])
  }

  /** The message of a key's `min(1)` check. */
  function EmptyMessage(key: string): string {
    if key == "ANTHROPIC_API_KEY" then "ANTHROPIC_API_KEY is required"
    else if key == "OPENAI_API_KEY" then "OPENAI_API_KEY is required when using ChromaDB for embeddings"
    else key + " is required when using ChromaDB"
  }

  /** The issue lines of a failed parse, one per rejected key in schema order: `Required` for
      a missing variable, the key's own message for an empty one. */
  function IssueLines(env: map<string, string>, keys: seq<string>): (lines: seq<string>)
    ensures |lines| <= |keys|
    ensures lines == [] <==> AllFilled(env, keys)
  {
    if keys == [] then []
    else
      var key := keys[|keys| - 1];
      var earlier := IssueLines(env, keys[..|keys| - 1]);
      assert AllFilled(env, keys) <==> AllFilled(env, keys[..|keys| - 1]) && Filled(env, key) by {
        if AllFilled(env, keys[..|keys| - 1]) && Filled(env, key) {
          forall i | 0 <= i < |keys| ensures Filled(env, keys[i]) {
            if i < |keys| - 1 {
              assert keys[i] == keys[..|keys| - 1][i];
            }
          }
        }
      }
      if Filled(env, key) then earlier
      else earlier + ["  - " + key + ": " + (if key in env then EmptyMessage(key) else "Required")]
  }

  /** `join(homedir(), '.vibeall', 'db.sqlite')`. */
  function DefaultSqlitePath(home: string): string {
    home + "/.vibeall/db.sqlite"
  }

  function ChromaConfig(env: map<string, string>): map<string, string> {
    map key | key in env && key in ChromaKeys :: env[key]
  }

  function SqliteConfig(env: map<string, string>, home: string): map<string, string>
    requires "ANTHROPIC_API_KEY" in env
  {
    map["ANTHROPIC_API_KEY" := env["ANTHROPIC_API_KEY"],
        "SQLITE_PATH" := if "SQLITE_PATH" in env then env["SQLITE_PATH"] else DefaultSqlitePath(home)]
  }

  const ErrorHead: seq<string> := [
    "Environment validation failed. You must provide:",
    "",
    "REQUIRED (always):",
    "  - ANTHROPIC_API_KEY",
    "",
    "CHOOSE ONE search method:",
    "",
    "1. ChromaDB embedding search:",
    "   - CHROMA_API_KEY",
    "   - CHROMA_TENANT",
    "   - CHROMA_DATABASE",
    "   - OPENAI_API_KEY (for embeddings)",
    "",
    "2. SQLite full-text search:",
    "   - SQLITE_PATH (optional, defaults to ~/.vibeall/db.sqlite)",
    "",
    "ChromaDB validation errors:"]

  /** `validateEnv`; the thrown error is the failure, its message the string. */
  function ValidateEnv(env: map<string, string>, home: string): Result<ValidatedEnv, string> {
    if AllFilled(env, ChromaKeys) then Success(ValidatedEnv(ChromaConfig(env), Chroma))
    else if Filled(env, "ANTHROPIC_API_KEY") then Success(ValidatedEnv(SqliteConfig(env, home), Sqlite))
    else
      Failure(Join(ErrorHead + IssueLines(env, ChromaKeys) + ["", "SQLite validation errors:"]
                   + IssueLines(env, ["ANTHROPIC_API_KEY"]), "\n"))
  }

  /** `isChromaConfig`. */
  predicate IsChromaConfig(config: map<string, string>) {
    "CHROMA_API_KEY" in config
  }

  /** `isSqliteConfig`. */
  predicate IsSqliteConfig(config: map<string, string>) {
    "SQLITE_PATH" in config || "CHROMA_API_KEY" !in config
  }

  /** The ChromaDB schema accepts exactly when its five variables are non-empty. */
  lemma ChromaKeysFilled(env: map<string, string>)
    ensures AllFilled(env, ChromaKeys) <==>
      Filled(env, "ANTHROPIC_API_KEY") && Filled(env, "CHROMA_API_KEY") && Filled(env, "CHROMA_TENANT")
      && Filled(env, "CHROMA_DATABASE") && Filled(env, "OPENAI_API_KEY")
  {
    assert ChromaKeys[0] == "ANTHROPIC_API_KEY" && ChromaKeys[1] == "CHROMA_API_KEY";
    assert ChromaKeys[2] == "CHROMA_TENANT" && ChromaKeys[3] == "CHROMA_DATABASE" && ChromaKeys[4] == "OPENAI_API_KEY";
  }

  /** The configuration is ChromaDB exactly when the Anthropic key and all four ChromaDB
      variables are non-empty; SQLite exactly when the Anthropic key is non-empty and any of
      the four is missing or empty; and validation fails exactly when the Anthropic key is
      missing or empty. */
  lemma ValidateEnvChoice(env: map<string, string>, home: string)
    ensures var r := ValidateEnv(env, home);
      && (r.Success? && r.value.kind == Chroma <==>
            Filled(env, "ANTHROPIC_API_KEY") && Filled(env, "CHROMA_API_KEY") && Filled(env, "CHROMA_TENANT")
            && Filled(env, "CHROMA_DATABASE") && Filled(env, "OPENAI_API_KEY"))
      && (r.Success? && r.value.kind == Sqlite <==>
            Filled(env, "ANTHROPIC_API_KEY") && !(Filled(env, "CHROMA_API_KEY") && Filled(env, "CHROMA_TENANT")
            && Filled(env, "CHROMA_DATABASE") && Filled(env, "OPENAI_API_KEY")))
      && (r.Failure? <==> !Filled(env, "ANTHROPIC_API_KEY"))
  {
    ChromaKeysFilled(env);
  }

  /** A failed validation reports, first, that validation failed, and lists every rejected
      ChromaDB variable and the SQLite schema's rejection of the Anthropic key. */
  lemma FailureMessage(env: map<string, string>, home: string)
    requires ValidateEnv(env, home).Failure?
    ensures StartsWith(ValidateEnv(env, home).error, "Environment validation failed")
    ensures IssueLines(env, ChromaKeys) != [] && IssueLines(env, ["ANTHROPIC_API_KEY"]) != []
  {
    var parts := ErrorHead + IssueLines(env, ChromaKeys) + ["", "SQLite validation errors:"]
                 + IssueLines(env, ["ANTHROPIC_API_KEY"]);
    JoinFirst(parts, "\n");
    assert parts[0] == ErrorHead[0];
    assert ErrorHead[0][..29] == "Environment validation failed";
    ChromaKeysFilled(env);
  }

  /** A SQLite configuration keeps a supplied SQLITE_PATH, empty or not, and otherwise uses the
      default under the home directory; it carries the Anthropic key unchanged. */
  lemma SqlitePath(env: map<string, string>, home: string)
    requires ValidateEnv(env, home).Success? && ValidateEnv(env, home).value.kind == Sqlite
    ensures var config := ValidateEnv(env, home).value.config;
      && config.Keys == {"ANTHROPIC_API_KEY", "SQLITE_PATH"}
      && config["ANTHROPIC_API_KEY"] == env["ANTHROPIC_API_KEY"]
      && config["SQLITE_PATH"] == (if "SQLITE_PATH" in env then env["SQLITE_PATH"] else DefaultSqlitePath(home))
      && EndsWith(DefaultSqlitePath(home), "/.vibeall/db.sqlite")
  {
    var d := DefaultSqlitePath(home);
    assert d[|home|..] == "/.vibeall/db.sqlite";
  }

  /** A ChromaDB configuration holds exactly the five schema keys with the environment's
      values. */
  lemma ChromaConfigKeys(env: map<string, string>, home: string)
    requires ValidateEnv(env, home).Success? && ValidateEnv(env, home).value.kind == Chroma
    ensures var config := ValidateEnv(env, home).value.config;
      && config.Keys == {"ANTHROPIC_API_KEY", "CHROMA_API_KEY", "CHROMA_TENANT", "CHROMA_DATABASE", "OPENAI_API_KEY"}
      && forall key :: key in config ==> config[key] == env[key] && config[key] != ""
  {
    assert forall i :: 0 <= i < |ChromaKeys| ==> ChromaKeys[i] in env;
    assert ChromaKeys[0] in env && ChromaKeys[1] in env && ChromaKeys[2] in env && ChromaKeys[3] in env && ChromaKeys[4] in env;
  }

  /** On every configuration `validateEnv` returns, exactly one guard holds, and it names the
      chosen kind. */
  lemma GuardsExclusive(env: map<string, string>, home: string)
    requires ValidateEnv(env, home).Success?
    ensures var v := ValidateEnv(env, home).value;
      && (IsChromaConfig(v.config) <==> v.kind == Chroma)
      && (IsSqliteConfig(v.config) <==> v.kind == Sqlite)
  {
    var v := ValidateEnv(env, home).value;
    if v.kind == Chroma {
      ChromaConfigKeys(env, home);
      assert "SQLITE_PATH" !in v.config;
    } else {
      SqlitePath(env, home);
    }
  }

  /** The guards rely on the dropped keys: an environment with every ChromaDB variable and a
      SQLITE_PATH satisfies both guards, while its parsed configuration satisfies only one. */
  lemma GuardsNeedDroppedKeys()
    ensures var env := map["ANTHROPIC_API_KEY" := "a", "CHROMA_API_KEY" := "k", "CHROMA_TENANT" := "t",
                           "CHROMA_DATABASE" := "d", "OPENAI_API_KEY" := "o", "SQLITE_PATH" := "p"];
      && IsChromaConfig(env) && IsSqliteConfig(env)
      && ValidateEnv(env, "/home").Success?
      && IsChromaConfig(ValidateEnv(env, "/home").value.config)
      && !IsSqliteConfig(ValidateEnv(env, "/home").value.config)
  {
    var env := map["ANTHROPIC_API_KEY" := "a", "CHROMA_API_KEY" := "k", "CHROMA_TENANT" := "t",
                    "CHROMA_DATABASE" := "d", "OPENAI_API_KEY" := "o", "SQLITE_PATH" := "p"];
    assert AllFilled(env, ChromaKeys);
    GuardsExclusive(env, "/home");
  }
}
