/**
 The game server's port selection (package `config` of the game app, file
 config.go, function `GetPort`). The command line is a parameter and the
 configured port is the value the configuration file provided; the console
 message printed when no argument is given is left out.
 */
module GameConfig {
  import opened Options
  import opened Strconv

  /** The value `GetPort` returns when the first argument is not a number. */
  const InvalidPort: int := -1

  /**
   `GetPort`: with no argument after the program name, the configured port;
   otherwise the first argument read as a decimal integer, or -1 when it is
   not one. No range check is made here.
   */
  function GetPort(args: seq<string>, configuredPort: int): (port: int)
    ensures |args| < 2 ==> port == configuredPort
    ensures |args| >= 2 && Atoi(args[1]).None? ==> port == InvalidPort
    ensures |args| >= 2 && Atoi(args[1]).Some? ==> port == Atoi(args[1]).value && MinInt64 <= port <= MaxInt64
  {
    if |args| < 2 then
      configuredPort
    else
      match Atoi(args[1])
      case None => InvalidPort
      case Some(port) => port
  }

  /** A port written on the command line in decimal is the port used, whatever follows it. */
  lemma GetPortReadsFirstArgument(program: string, port: int, rest: seq<string>, configuredPort: int)
    requires MinInt64 <= port <= MaxInt64
    ensures GetPort([program, Itoa(port)] + rest, configuredPort) == port
  {
    AtoiItoa(port);
    assert ([program, Itoa(port)] + rest)[1] == Itoa(port);
  }

  /** Only the first argument counts: later ones and the program name never change the result. */
  lemma GetPortIgnoresOtherArguments(args1: seq<string>, args2: seq<string>, configuredPort: int)
    requires |args1| >= 2 && |args2| >= 2 && args1[1] == args2[1]
    ensures GetPort(args1, configuredPort) == GetPort(args2, configuredPort)
  {
  }

  /** An argument with a character that is not a digit (past an optional sign) yields -1. */
  lemma GetPortRejectsNonNumeric(args: seq<string>, configuredPort: int, i: nat)
    requires |args| >= 2 && i < |args[1]| && !IsDigit(args[1][i])
    requires i > 0 || (args[1][i] != '-' && args[1][i] != '+')
    ensures GetPort(args, configuredPort) == InvalidPort
  {
    AtoiRejectsNonDigit(args[1], i);
  }

  /**
   The port is not range-checked: "0", a negative number and a number above
   65535 all come back unchanged, and "-1" cannot be told apart from a
   malformed argument.
   */
  lemma GetPortDoesNotValidate(program: string, configuredPort: int)
    ensures GetPort([program, "0"], configuredPort) == 0
    ensures GetPort([program, "-5"], configuredPort) == -5
    ensures GetPort([program, "70000"], configuredPort) == 70000
    ensures GetPort([program, "-1"], configuredPort) == GetPort([program, "port"], configuredPort)
  {
    assert GetPort([program, "0"], configuredPort) == 0 by {
      AtoiItoa(0);
      assert Itoa(0) == "0";
    }
    assert GetPort([program, "-5"], configuredPort) == -5 by {
      AtoiItoa(-5);
      assert Itoa(-5) == "-5";
    }
    assert GetPort([program, "70000"], configuredPort) == 70000 by {
      AtoiItoa(70000);
      assert Itoa(70000) == "70000";
    }
    assert GetPort([program, "-1"], configuredPort) == InvalidPort by {
      AtoiItoa(-1);
      assert Itoa(-1) == "-1";
    }
    AtoiRejectsNonDigit("port", 0);
  }
}
