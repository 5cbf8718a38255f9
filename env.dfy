/** env/env.go: the bot's settings, each read once from the process environment with a
    built-in default. The environment is a parameter (a map from variable name to value). */
module Env {
  import opened Common

  const DefaultNick := "mikogo"
  const DefaultOwner := "maki"
  const DefaultHomeServer := "127.0.0.1:6697"

  /** The process-wide values every other part of the bot reads: NICK, OWNER,
      HOME_SERVER and whether DEV is set. */
  datatype Settings = Settings(dev: bool, nick: string, owner: string, homeServer: string)

  /** getEnv: the variable's value whenever it is set (even to the empty string),
      otherwise the fallback. */
  function GetEnv(environ: map<string, string>, key: string, fallback: string): (v: string)
    ensures key in environ ==> v == environ[key]
    ensures key !in environ ==> v == fallback
  {
    if key in environ then environ[key] else fallback
  }

  /** The package-level variables of env.go. */
  function Load(environ: map<string, string>): (s: Settings)
    ensures s.dev <==> "DEV" in environ
    ensures s.nick == (if "NICK" in environ then environ["NICK"] else DefaultNick)
    ensures s.owner == (if "OWNER" in environ then environ["OWNER"] else DefaultOwner)
    ensures s.homeServer == (if "HOME_SERVER" in environ then environ["HOME_SERVER"] else DefaultHomeServer)
  {
    Settings(
      "DEV" in environ,
      GetEnv(environ, "NICK", DefaultNick),
      GetEnv(environ, "OWNER", DefaultOwner),
      GetEnv(environ, "HOME_SERVER", DefaultHomeServer))
  }

  /** With nothing set, the defaults are nick mikogo, owner maki and home 127.0.0.1:6697. */
  lemma LoadDefaults()
    ensures Load(map[]) == Settings(false, "mikogo", "maki", "127.0.0.1:6697")
  {
  }

  /** A variable set to the empty string wins over the default. */
  lemma LoadKeepsEmptyValue(environ: map<string, string>)
    requires "NICK" in environ && environ["NICK"] == ""
    ensures Load(environ).nick == ""
  {
  }

  /** GetGoVersion: the text before the first space of runtime.Version(), with one
      leading "go" removed. The runtime's version string is a parameter. */
  function GetGoVersion(runtimeVersion: string): (v: string)
    ensures ' ' !in v
    ensures |v| <= |runtimeVersion|
  {
    var first := Split(runtimeVersion, ' ')[0];
    FirstPartHasNoSpace(runtimeVersion);
    TrimPrefix(first, "go")
  }

  lemma FirstPartHasNoSpace(s: string)
    ensures ' ' !in Split(s, ' ')[0] && |Split(s, ' ')[0]| <= |s|
  {
    if ' ' in s {
      var i := IndexOf(s, ' ');
      assert Split(s, ' ')[0] == s[..i];
    }
  }

  /** For a version string "go<v>" optionally followed by a space and more text,
      GetGoVersion gives exactly <v>. */
  lemma {:induction false} GoVersionOf(v: string, rest: string)
    requires ' ' !in v
    ensures GetGoVersion("go" + v) == v
    ensures GetGoVersion("go" + v + " " + rest) == v
  {
    var s1 := "go" + v;
    assert ' ' !in s1 by {
      assert forall i :: 0 <= i < |s1| ==> s1[i] == (if i < 2 then "go"[i] else v[i - 2]);
    }
    assert HasPrefix(s1, "go");
    var s2 := "go" + v + " " + rest;
    var i := IndexOf(s2, ' ');
    assert s2[|s1|] == ' ';
    assert i == |s1| by {
      assert forall k :: 0 <= k < |s1| ==> s2[k] == s1[k];
      assert ' ' !in s2[..|s1|] by { assert s2[..|s1|] == s1; }
      assert s2[..i] == s1[..i];
    }
    assert Split(s2, ' ')[0] == s1;
  }
}
