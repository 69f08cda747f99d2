/** Environment validation of the MCP server (packages/mcp/src/lib/env.ts): the Chroma
    configuration (a server URL and a collection) is tried first, then the SQLite one (a
    database path); both need the Anthropic key. The process environment is passed in as a
    map; a parsed configuration holds its schema's keys only. */
module McpEnv {
  import opened Wrappers
  import opened Strings

  datatype Kind = Chroma | Sqlite

  datatype ValidatedEnv = ValidatedEnv(config: map<string, string>, kind: Kind)

  /** One rejected field of a parse: the key and zod's message. */
  datatype Issue = Issue(key: string, message: string)

  const ChromaKeys: seq<string> := ["CHROMA_URL", "CHROMA_COLLECTION", "ANTHROPIC_API_KEY"]
  const SqliteKeys: seq<string> := ["SQLITE_PATH", "ANTHROPIC_API_KEY"]

  /** The field's check: `url()` for CHROMA_URL (decided by `isUrl`), `min(1)` otherwise. */
  predicate Accepts(key: string, value: string, isUrl: string -> bool) {
    if key == "CHROMA_URL" then isUrl(value) else value != ""
  }

  /** The issues of parsing `env` against the fields `keys`, in field order. */
  function Issues(env: map<string, string>, keys: seq<string>, isUrl: string -> bool): (issues: seq<Issue>)
    ensures |issues| <= |keys|
    ensures forall j :: 0 <= j < |issues| ==> issues[j].key in keys
  {
    if keys == [] then []
    else
      var key := keys[|keys| - 1];
      var earlier := Issues(env, keys[..|keys| - 1], isUrl);
      if key !in env then earlier + [Issue(key, "Required")]
      else if Accepts(key, env[key], isUrl) then earlier
      else earlier + [Issue(key, if key == "CHROMA_URL" then "Invalid url" else "String must contain at least 1 character(s)")]
  }

  /** Every field is present and passes its check. */
  predicate Parses(env: map<string, string>, keys: seq<string>, isUrl: string -> bool) {
    forall i :: 0 <= i < |keys| ==> keys[i] in env && Accepts(keys[i], env[keys[i]], isUrl)
  }

  /** The parsed object: the schema's fields with the environment's values. */
  function Parsed(env: map<string, string>, keys: seq<string>): map<string, string> {
    map key | key in env && key in keys :: env[key]
  }

  const FailureHead: string :=
    "Environment validation failed. Please provide either:\n"
    + "1. Chroma config: CHROMA_URL, CHROMA_COLLECTION, ANTHROPIC_API_KEY\n"
    + "2. SQLite config: SQLITE_PATH, ANTHROPIC_API_KEY\n\n"

  /** `validateEnv`; `render` stands for the message of a thrown ZodError, and `isUrl` for
      zod's URL check. */
  function ValidateEnv(env: map<string, string>, isUrl: string -> bool, render: seq<Issue> -> string)
    : Result<ValidatedEnv, string>
  {
    if Parses(env, ChromaKeys, isUrl) then Success(ValidatedEnv(Parsed(env, ChromaKeys), Chroma))
    else if Parses(env, SqliteKeys, isUrl) then Success(ValidatedEnv(Parsed(env, SqliteKeys), Sqlite))
    else
      Failure(FailureHead
              + "Chroma validation error: " + render(Issues(env, ChromaKeys, isUrl)) + "\n"
              + "SQLite validation error: " + render(Issues(env, SqliteKeys, isUrl)))
  }

  /** `isChromaConfig`. */
  predicate IsChromaConfig(config: map<string, string>) {
    "CHROMA_URL" in config && "CHROMA_COLLECTION" in config
  }

  /** `isSqliteConfig`. */
  predicate IsSqliteConfig(config: map<string, string>) {
    "SQLITE_PATH" in config
  }

  /** A parse succeeds exactly when it reports no issue. */
  lemma {:induction false} IssuesEmptyIff(env: map<string, string>, keys: seq<string>, isUrl: string -> bool)
    ensures Issues(env, keys, isUrl) == [] <==> Parses(env, keys, isUrl)
  {
    if keys != [] {
      var init := keys[..|keys| - 1];
      IssuesEmptyIff(env, init, isUrl);
      if Parses(env, init, isUrl) && keys[|keys| - 1] in env && Accepts(keys[|keys| - 1], env[keys[|keys| - 1]], isUrl) {
        forall i | 0 <= i < |keys| ensures keys[i] in env && Accepts(keys[i], env[keys[i]], isUrl) {
          if i < |init| {
            assert keys[i] == init[i];
          }
        }
      }
      if Parses(env, keys, isUrl) {
        forall i | 0 <= i < |init| ensures init[i] in env && Accepts(init[i], env[init[i]], isUrl) {
          assert init[i] == keys[i];
        }
      }
    }
  }

  /** Chroma is chosen exactly when the URL passes the URL check and the collection and the
      Anthropic key are non-empty; SQLite exactly when Chroma is not and the path and the key
      are non-empty; otherwise validation fails. */
  lemma ValidateEnvChoice(env: map<string, string>, isUrl: string -> bool, render: seq<Issue> -> string)
    ensures var r := ValidateEnv(env, isUrl, render);
      var chroma := "CHROMA_URL" in env && isUrl(env["CHROMA_URL"])
        && "CHROMA_COLLECTION" in env && env["CHROMA_COLLECTION"] != ""
        && "ANTHROPIC_API_KEY" in env && env["ANTHROPIC_API_KEY"] != "";
      var sqlite := "SQLITE_PATH" in env && env["SQLITE_PATH"] != ""
        && "ANTHROPIC_API_KEY" in env && env["ANTHROPIC_API_KEY"] != "";
      && (r.Success? && r.value.kind == Chroma <==> chroma)
      && (r.Success? && r.value.kind == Sqlite <==> !chroma && sqlite)
      && (r.Failure? <==> !chroma && !sqlite)
  {
    assert ChromaKeys[0] == "CHROMA_URL" && ChromaKeys[1] == "CHROMA_COLLECTION" && ChromaKeys[2] == "ANTHROPIC_API_KEY";
    assert SqliteKeys[0] == "SQLITE_PATH" && SqliteKeys[1] == "ANTHROPIC_API_KEY";
  }

  /** A failed validation names both schemas' rejections, Chroma's first, and each rendered
      issue list is non-empty. */
  lemma FailureMessage(env: map<string, string>, isUrl: string -> bool, render: seq<Issue> -> string)
    requires ValidateEnv(env, isUrl, render).Failure?
    ensures var chroma := Issues(env, ChromaKeys, isUrl);
      var sqlite := Issues(env, SqliteKeys, isUrl);
      && chroma != [] && sqlite != []
      && StartsWith(ValidateEnv(env, isUrl, render).error, FailureHead)
      && EndsWith(ValidateEnv(env, isUrl, render).error, "SQLite validation error: " + render(sqlite))
  {
    IssuesEmptyIff(env, ChromaKeys, isUrl);
    IssuesEmptyIff(env, SqliteKeys, isUrl);
    var msg := ValidateEnv(env, isUrl, render).error;
    var chroma := Issues(env, ChromaKeys, isUrl);
    var tail := "SQLite validation error: " + render(Issues(env, SqliteKeys, isUrl));
    var front := FailureHead + "Chroma validation error: " + render(chroma) + "\n";
    assert msg == front + tail;
    assert msg[..|FailureHead|] == FailureHead;
    assert msg[|msg| - |tail|..] == tail;
  }

  /** On every configuration `validateEnv` returns, exactly one guard holds, and it names the
      chosen kind. */
  lemma GuardsExclusive(env: map<string, string>, isUrl: string -> bool, render: seq<Issue> -> string)
    requires ValidateEnv(env, isUrl, render).Success?
    ensures var v := ValidateEnv(env, isUrl, render).value;
      && (IsChromaConfig(v.config) <==> v.kind == Chroma)
      && (IsSqliteConfig(v.config) <==> v.kind == Sqlite)
  {
    var v := ValidateEnv(env, isUrl, render).value;
    if v.kind == Chroma {
      assert ChromaKeys[0] in env && ChromaKeys[1] in env;
      assert "SQLITE_PATH" !in ChromaKeys;
    } else {
      assert SqliteKeys[0] in env;
      assert "CHROMA_URL" !in SqliteKeys;
    }
  }
}
