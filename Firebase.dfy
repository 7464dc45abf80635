/**
 * The Firebase configuration check (lib/firebase.ts): six settings read from
 * the environment, valid when none is empty, and the names of the missing
 * ones reported in a warning. Initialising the Firebase app is outside the
 * model.
 */
module Firebase {
  import opened Strings

  /** The configuration fields, in declaration order. */
  const ConfigKeys: seq<string> :=
    ["apiKey", "authDomain", "projectId", "storageBucket", "messagingSenderId", "appId"]

  /** The environment variable each field is read from, in the same order. */
  const EnvVarsRead: seq<string> := [
    "NEXT_PUBLIC_FIREBASE_API_KEY", "NEXT_PUBLIC_FIREBASE_AUTH_DOMAIN",
    "NEXT_PUBLIC_FIREBASE_PROJECT_ID", "NEXT_PUBLIC_FIREBASE_STORAGE_BUCKET",
    "NEXT_PUBLIC_FIREBASE_MESSAGING_SENDER_ID", "NEXT_PUBLIC_FIREBASE_APP_ID"]

  /** One `[key, value]` entry of the configuration object. */
  datatype Entry = Entry(key: string, value: string)

  /** `process.env[name] || ''` */
  function EnvValue(env: map<string, string>, name: string): string {
    if name in env then env[name] else ""
  }

  /** The configuration built from the environment, as `Object.entries` lists it. */
  function ConfigFromEnv(env: map<string, string>): (entries: seq<Entry>)
    ensures |entries| == |ConfigKeys|
    ensures forall k :: 0 <= k < |entries| ==>
      entries[k] == Entry(ConfigKeys[k], EnvValue(env, EnvVarsRead[k]))
  {
    seq(|ConfigKeys|, k requires 0 <= k < |ConfigKeys| => Entry(ConfigKeys[k], EnvValue(env, EnvVarsRead[k])))
  }

  /** `isConfigValid`: every value is non-empty. */
  predicate IsConfigValid(entries: seq<Entry>) {
    forall k :: 0 <= k < |entries| ==> entries[k].value != ""
  }

  /** The configuration is valid exactly when all six variables are set to non-empty text. */
  lemma ValidIffAllSet(env: map<string, string>)
    ensures IsConfigValid(ConfigFromEnv(env)) <==>
      forall k :: 0 <= k < |EnvVarsRead| ==> EnvVarsRead[k] in env && env[EnvVarsRead[k]] != ""
  {
  }

  /** `entries.filter(([, value]) => !value).map(([key]) => key)`, in order. */
  function MissingKeys(entries: seq<Entry>): (keys: seq<string>)
    ensures |keys| <= |entries|
    decreases |entries|
  {
    if |entries| == 0 then []
    else (if entries[0].value == "" then [entries[0].key] else []) + MissingKeys(entries[1..])
  }

  /** Something is missing exactly when the configuration is invalid. */
  lemma {:induction false} MissingIffInvalid(entries: seq<Entry>)
    ensures |MissingKeys(entries)| > 0 <==> !IsConfigValid(entries)
    decreases |entries|
  {
    if |entries| > 0 {
      MissingIffInvalid(entries[1..]);
      assert forall k :: 1 <= k < |entries| ==> entries[k] == entries[1..][k - 1];
    }
  }

  /** Every reported key belongs to an entry with an empty value. */
  lemma {:induction false} MissingKeysAreEmpty(entries: seq<Entry>, key: string)
    requires key in MissingKeys(entries)
    ensures exists k :: 0 <= k < |entries| && entries[k].key == key && entries[k].value == ""
    decreases |entries|
  {
    if entries[0].value == "" && key == entries[0].key {
    } else {
      MissingKeysAreEmpty(entries[1..], key);
      var k :| 0 <= k < |entries[1..]| && entries[1..][k].key == key && entries[1..][k].value == "";
      assert entries[k + 1] == entries[1..][k];
    }
  }

  /** Every entry with an empty value has its key reported. */
  lemma {:induction false} MissingKeysReportsEmpty(entries: seq<Entry>, k: nat)
    requires k < |entries| && entries[k].value == ""
    ensures entries[k].key in MissingKeys(entries)
    decreases k
  {
    if k > 0 {
      assert entries[1..][k - 1] == entries[k];
      MissingKeysReportsEmpty(entries[1..], k - 1);
    }
  }

  /** The filter keeps the entries' order: the keys of two runs come one run after the other. */
  lemma {:induction false} MissingKeysAppend(a: seq<Entry>, b: seq<Entry>)
    ensures MissingKeys(a + b) == MissingKeys(a) + MissingKeys(b)
    decreases |a|
  {
    if |a| == 0 {
      assert a + b == b;
    } else {
      assert (a + b)[0] == a[0] && (a + b)[1..] == a[1..] + b;
      MissingKeysAppend(a[1..], b);
    }
  }

  /** What one character of a key becomes: an underscore is put before a capital. */
  function SnakePiece(c: char): string {
    if IsUpper(c) then "_" + [c] else [c]
  }

  /** The rewritten key from position `i` on. */
  function SnakeFrom(key: string, i: nat): string
    requires i <= |key|
    decreases |key| - i
  {
    if i == |key| then "" else SnakePiece(key[i]) + SnakeFrom(key, i + 1)
  }

  /** `key.replace(/([A-Z])/g, '_$1')`: an underscore before every capital letter. */
  function Snake(key: string): (r: string)
    ensures |key| > 0 && !IsUpper(key[0]) ==> |r| > 0 && r[0] == key[0]
  {
    SnakeFrom(key, 0)
  }

  /** The rewrite from a position depends only on the text from there on. */
  lemma {:induction false} SnakeFromSameRest(s: string, i: nat, t: string, j: nat)
    requires i <= |s| && j <= |t| && s[i..] == t[j..]
    ensures SnakeFrom(s, i) == SnakeFrom(t, j)
    decreases |s| - i
  {
    if i < |s| {
      assert s[i] == s[i..][0] == t[j..][0] == t[j];
      assert s[i + 1..] == s[i..][1..] == t[j..][1..] == t[j + 1..];
      SnakeFromSameRest(s, i + 1, t, j + 1);
    }
  }

  lemma {:induction false} SnakeFromAppend(a: string, b: string, i: nat)
    requires i <= |a|
    ensures SnakeFrom(a + b, i) == SnakeFrom(a, i) + Snake(b)
    decreases |a| - i
  {
    if i == |a| {
      SnakeFromSameRest(a + b, i, b, 0);
    } else {
      assert (a + b)[i] == a[i];
      SnakeFromAppend(a, b, i + 1);
    }
  }

  /** The replacement works character by character, so it distributes over concatenation. */
  lemma SnakeAppend(a: string, b: string)
    ensures Snake(a + b) == Snake(a) + Snake(b)
  {
    SnakeFromAppend(a, b, 0);
  }

  /** One character: a capital gets an underscore before it, anything else stays. */
  lemma SnakeOfChar(c: char)
    ensures Snake([c]) == if IsUpper(c) then ['_', c] else [c]
  {
    assert SnakeFrom([c], 1) == "";
  }

  lemma {:induction false} SnakeFromWithoutCapitals(key: string, i: nat)
    requires i <= |key|
    requires forall j :: 0 <= j < |key| ==> !IsUpper(key[j])
    ensures SnakeFrom(key, i) == key[i..]
    decreases |key| - i
  {
    if i < |key| {
      SnakeFromWithoutCapitals(key, i + 1);
      assert key[i..] == [key[i]] + key[i + 1..];
    }
  }

  /** A key without capitals is left as it is. */
  lemma SnakeWithoutCapitals(key: string)
    requires forall i :: 0 <= i < |key| ==> !IsUpper(key[i])
    ensures Snake(key) == key
  {
    SnakeFromWithoutCapitals(key, 0);
  }

  /** The variable name the warning reports for a key, as the code derives it. */
  function EnvNameAsWritten(key: string): (name: string)
    ensures name == "NEXT_PUBLIC_" + ToUpper(Snake(key))
    ensures StartsWith(name, "NEXT_PUBLIC_")
    ensures |key| > 0 && !IsUpper(key[0]) ==> |name| > 12 && name[12] == UpperChar(key[0])
  {
    var name := "NEXT_PUBLIC_" + ToUpper(Snake(key));
    assert name[..12] == "NEXT_PUBLIC_";
    name
  }

  /** A capitalised word without other capitals gets one underscore, in front. */
  lemma SnakeCapitalWord(w: string)
    requires |w| > 0 && IsUpper(w[0])
    requires forall i :: 1 <= i < |w| ==> !IsUpper(w[i])
    ensures Snake(w) == "_" + w
  {
    assert w == [w[0]] + w[1..];
    SnakeAppend([w[0]], w[1..]);
    SnakeOfChar(w[0]);
    SnakeWithoutCapitals(w[1..]);
  }

  /** A camel-case key of two words: an underscore between them. */
  lemma SnakeTwoWords(a: string, b: string)
    requires forall i :: 0 <= i < |a| ==> !IsUpper(a[i])
    requires |b| > 0 && IsUpper(b[0]) && forall i :: 1 <= i < |b| ==> !IsUpper(b[i])
    ensures Snake(a + b) == a + "_" + b
  {
    SnakeAppend(a, b);
    SnakeWithoutCapitals(a);
    SnakeCapitalWord(b);
  }

  /** Upper-casing works character by character. */
  lemma ToUpperAppend(a: string, b: string)
    ensures ToUpper(a + b) == ToUpper(a) + ToUpper(b)
  {
  }

  /**
   * The derived name of a two-word camel-case key such as `apiKey`: the
   * words upper-cased and joined by an underscore (`NEXT_PUBLIC_API_KEY`).
   */
  lemma TwoWordName(a: string, b: string)
    requires forall i :: 0 <= i < |a| ==> !IsUpper(a[i])
    requires |b| > 0 && IsUpper(b[0]) && forall i :: 1 <= i < |b| ==> !IsUpper(b[i])
    ensures EnvNameAsWritten(a + b) == "NEXT_PUBLIC_" + ToUpper(a) + "_" + ToUpper(b)
  {
    SnakeTwoWords(a, b);
    ToUpperAppend(a + "_", b);
    ToUpperAppend(a, "_");
  }

  /**
   * The derived name of a three-word key such as `messagingSenderId`
   * (`NEXT_PUBLIC_MESSAGING_SENDER_ID`).
   */
  lemma ThreeWordName(a: string, b: string, c: string)
    requires forall i :: 0 <= i < |a| ==> !IsUpper(a[i])
    requires |b| > 0 && IsUpper(b[0]) && forall i :: 1 <= i < |b| ==> !IsUpper(b[i])
    requires |c| > 0 && IsUpper(c[0]) && forall i :: 1 <= i < |c| ==> !IsUpper(c[i])
    ensures EnvNameAsWritten(a + b + c) == "NEXT_PUBLIC_" + ToUpper(a) + "_" + ToUpper(b) + "_" + ToUpper(c)
  {
    SnakeTwoWords(a, b);
    SnakeCapitalWord(c);
    SnakeAppend(a + b, c);
    ToUpperAppend(a + "_" + b + "_", c);
    ToUpperAppend(a + "_" + b, "_");
    ToUpperAppend(a + "_", b);
    ToUpperAppend(a, "_");
  }

  /** The warning as written: the derived names of the empty fields, joined with `', '`. */
  function MissingVarsAsWritten(entries: seq<Entry>): string {
    var keys := MissingKeys(entries);
    Join(seq(|keys|, k requires 0 <= k < |keys| => EnvNameAsWritten(keys[k])), ", ")
  }

  /**
   * The derivation as written never names the variable a field is read
   * from: for `apiKey` it reports `NEXT_PUBLIC_API_KEY`, while the value
   * comes from `NEXT_PUBLIC_FIREBASE_API_KEY`, and likewise for every field.
   */
  lemma AsWrittenNamesWrongVariable(k: nat)
    requires k < |ConfigKeys|
    ensures EnvNameAsWritten(ConfigKeys[k]) != EnvVarsRead[k]
  {
    var key := ConfigKeys[k];
    assert key[0] != 'f' && !IsUpper(key[0]);
    assert EnvVarsRead[k][12] == 'F';
  }

  /**
   * The names the warning should report: the variables read for the fields
   * left empty, in field order.
   */
  function MissingVarNames(env: map<string, string>): (names: seq<string>)
    ensures |names| <= |EnvVarsRead|
  {
    UnsetAmong(env, EnvVarsRead)
  }

  /** The variables of `vars` that are unset or empty in `env`, in order. */
  function UnsetAmong(env: map<string, string>, vars: seq<string>): (names: seq<string>)
    ensures |names| <= |vars|
    decreases |vars|
  {
    if |vars| == 0 then []
    else (if EnvValue(env, vars[0]) == "" then [vars[0]] else []) + UnsetAmong(env, vars[1..])
  }

  /** The unset variables of two lists come one list after the other, in order. */
  lemma {:induction false} UnsetAmongAppend(env: map<string, string>, a: seq<string>, b: seq<string>)
    ensures UnsetAmong(env, a + b) == UnsetAmong(env, a) + UnsetAmong(env, b)
    decreases |a|
  {
    if |a| == 0 {
      assert a + b == b;
    } else {
      assert (a + b)[0] == a[0] && (a + b)[1..] == a[1..] + b;
      UnsetAmongAppend(env, a[1..], b);
    }
  }

  /** A variable is listed exactly when it is among `vars` and unset or empty. */
  lemma {:induction false} UnsetAmongIff(env: map<string, string>, vars: seq<string>, name: string)
    ensures name in UnsetAmong(env, vars) <==> name in vars && EnvValue(env, name) == ""
    decreases |vars|
  {
    if |vars| > 0 {
      UnsetAmongIff(env, vars[1..], name);
      assert vars == [vars[0]] + vars[1..];
    }
  }

  /** The corrected warning names exactly the unset variables among those read. */
  lemma MissingVarNamesExact(env: map<string, string>, name: string)
    ensures name in MissingVarNames(env) <==> name in EnvVarsRead && EnvValue(env, name) == ""
  {
    UnsetAmongIff(env, EnvVarsRead, name);
  }

  /** The corrected warning is empty exactly when the configuration is valid. */
  lemma MissingVarNamesEmptyIffValid(env: map<string, string>)
    ensures MissingVarNames(env) == [] <==> IsConfigValid(ConfigFromEnv(env))
  {
    if MissingVarNames(env) != [] {
      var name := MissingVarNames(env)[0];
      MissingVarNamesExact(env, name);
      var k :| 0 <= k < |EnvVarsRead| && EnvVarsRead[k] == name;
      assert ConfigFromEnv(env)[k].value == "";
    } else if !IsConfigValid(ConfigFromEnv(env)) {
      var k :| 0 <= k < |ConfigFromEnv(env)| && ConfigFromEnv(env)[k].value == "";
      MissingVarNamesExact(env, EnvVarsRead[k]);
    }
  }

  /** `missingVars` with the corrected names. */
  function MissingVars(env: map<string, string>): string {
    Join(MissingVarNames(env), ", ")
  }
}
