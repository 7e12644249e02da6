/**
 * The command-line launcher: the `--key [value]` loop that fills `options`
 * from the arguments after the script name, and the port it reports.
 */
module Cli {
  import opened JsStrings

  /** An option's value: `true` for a bare flag, or the argument after it. */
  datatype OptValue = Flag | Value(text: string)

  predicate IsFlag(a: string) {
    StartsWith(a, "--")
  }

  /** The key a `--key` argument sets: the argument without its `--`. */
  function Key(a: string): string
    requires IsFlag(a)
  {
    a[2..]
  }

  /** The value for the flag at `j`: the next argument when it exists, is non-empty and is no flag; `true` otherwise. */
  function ValueAt(args: seq<string>, j: nat): OptValue
    requires j < |args|
  {
    if j + 1 < |args| && args[j + 1] != "" && !IsFlag(args[j + 1]) then Value(args[j + 1]) else Flag
  }

  /**
   * Reference: the options set by the first `n` arguments when every
   * argument is looked at, values included, each `--key` setting its key.
   */
  function Build(args: seq<string>, n: nat): map<string, OptValue>
    requires n <= |args|
    decreases n
  {
    if n == 0 then map[]
    else
      var m := Build(args, n - 1);
      if IsFlag(args[n - 1]) then m[Key(args[n - 1]) := ValueAt(args, n - 1)] else m
  }

  /**
   * The parse loop: a consumed value is stepped over by bumping the index.
   * The result is the reference map, so stepping over a value never loses a key.
   */
  method ParseOptions(args: seq<string>) returns (options: map<string, OptValue>)
    ensures options == Build(args, |args|)
  {
    options := map[];
    var i := 0;
    while i < |args|
      invariant 0 <= i <= |args|
      invariant options == Build(args, i)
    {
      if IsFlag(args[i]) {
        var key := args[i][2..];
        var value := if i + 1 < |args| && args[i + 1] != "" && !IsFlag(args[i + 1]) then Value(args[i + 1]) else Flag;
        options := options[key := value];
        if value != Flag {
          i := i + 1;
        }
      }
      i := i + 1;
    }
  }

  /** A key is set exactly when some `--` argument names it; positional arguments set nothing. */
  lemma {:induction false} KeysFromFlags(args: seq<string>, n: nat, k: string)
    requires n <= |args|
    ensures k in Build(args, n) <==> exists j :: 0 <= j < n && IsFlag(args[j]) && Key(args[j]) == k
    decreases n
  {
    if n > 0 {
      KeysFromFlags(args, n - 1, k);
    }
  }

  /** The last occurrence of a key decides its value. */
  lemma {:induction false} LastOccurrenceWins(args: seq<string>, n: nat, j: nat)
    requires j < n <= |args| && IsFlag(args[j])
    requires forall i :: j < i < n && IsFlag(args[i]) ==> Key(args[i]) != Key(args[j])
    ensures Key(args[j]) in Build(args, n) && Build(args, n)[Key(args[j])] == ValueAt(args, j)
    decreases n
  {
    if j < n - 1 {
      LastOccurrenceWins(args, n - 1, j);
    }
  }

  /** A value is never empty and never starts with `--`: a flag is never taken as another flag's value. */
  lemma {:induction false} ValuesAreNoFlags(args: seq<string>, n: nat, k: string)
    requires n <= |args| && k in Build(args, n) && Build(args, n)[k].Value?
    ensures Build(args, n)[k].text != "" && !IsFlag(Build(args, n)[k].text)
    decreases n
  {
    if !(IsFlag(args[n - 1]) && Key(args[n - 1]) == k) {
      ValuesAreNoFlags(args, n - 1, k);
    }
  }

  // ---------------------------------------------------------------------
  // The port

  const DefaultPortNumber: nat := 3000

  /** Where the reported port comes from. */
  datatype PortSetting = OptionPort(v: OptValue) | EnvPort(text: string) | DefaultPort(number: nat)

  /** `Boolean(options[key])` for a present key. */
  predicate Truthy(v: OptValue) {
    v.Flag? || v.text != ""
  }

  /** `options.port || process.env.PORT || 3000`, with `envPort` the environment variable if set. */
  function Port(options: map<string, OptValue>, envPort: Option<string>): PortSetting {
    if "port" in options && Truthy(options["port"]) then OptionPort(options["port"])
    else if envPort.Some? && envPort.value != "" then EnvPort(envPort.value)
    else DefaultPort(DefaultPortNumber)
  }

  /**
   * After parsing, a `--port` argument always decides the port, even bare
   * (the port is then `true`); the environment is read only without one,
   * and 3000 is used only when neither gives a value.
   */
  lemma PortPrecedence(args: seq<string>, envPort: Option<string>)
    ensures var options := Build(args, |args|);
      ("port" in options ==> Port(options, envPort) == OptionPort(options["port"])) &&
      ("port" !in options && envPort.Some? && envPort.value != "" ==> Port(options, envPort) == EnvPort(envPort.value)) &&
      (Port(options, envPort) == DefaultPort(3000) <==> "port" !in options && (envPort.None? || envPort.value == ""))
  {
    var options := Build(args, |args|);
    if "port" in options && options["port"].Value? {
      ValuesAreNoFlags(args, |args|, "port");
    }
  }

  /** A bare `--port` as the last argument makes the port `true`. */
  lemma BarePortFlag(args: seq<string>, envPort: Option<string>)
    requires |args| > 0 && args[|args| - 1] == "--port"
    ensures Port(Build(args, |args|), envPort) == OptionPort(Flag)
  {
    assert IsFlag(args[|args| - 1]) && Key(args[|args| - 1]) == "port";
  }
}
