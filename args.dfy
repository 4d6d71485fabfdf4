/** Argument interpretation: the validation prefix of `main`, which turns the
    command-line arguments (without the program name, so `len(os.Args)` is
    `|args| + 1`) into a request or a usage failure. */
module Args {
  import opened Things

  /** Membership of `a` in `list`, by a scan that stops at the first equal
      element. */
  method IsStringInSlice(a: string, list: seq<string>) returns (found: bool)
    ensures found <==> a in list
    ensures list == [] ==> !found
  {
    for i := 0 to |list|
      invariant forall j :: 0 <= j < i ==> list[j] != a
    {
      if list[i] == a {
        return true;
      }
    }
    return false;
  }

  /** The literals `strconv.ParseBool` accepts; the library itself is not
      part of this model, this set is an assumption about it. */
  const TrueLiterals: set<string> := {"1", "t", "T", "TRUE", "true", "True"}
  const FalseLiterals: set<string> := {"0", "f", "F", "FALSE", "false", "False"}

  function ParseBool(s: string): (r: Option<bool>)
    ensures r == Some(true) <==> s in TrueLiterals
    ensures r == Some(false) <==> s in FalseLiterals
  {
    if s in TrueLiterals then Some(true)
    else if s in FalseLiterals then Some(false)
    else None
  }

  /** `strings.Join`: the parts with `sep` between neighbours. */
  function Join(parts: seq<string>, sep: string): (r: string)
    ensures |parts| == 1 ==> r == parts[0]
    ensures parts == [] ==> r == ""
  {
    if parts == [] then ""
    else if |parts| == 1 then parts[0]
    else parts[0] + sep + Join(parts[1..], sep)
  }

  /** The filter value: every token after the method joined with single
      spaces when there are two or more of them, otherwise the one token,
      which "list" does not take. */
  function ValueOf(args: seq<string>): (v: string)
    requires |args| >= 1
    ensures args[0] != "list" && |args| >= 2 ==> v == Join(args[1..], " ")
    ensures |args| <= 2 && (|args| == 1 || args[0] == "list") ==> v == ""
  {
    if |args| >= 3 then Join(args[1..], " ")
    else if |args| == 2 && args[0] != "list" then args[1]
    else ""
  }

  /** What the checks of `main` decide, stated case by case: too few
      arguments, an unknown method, a "promoted" whose first value token is
      not a boolean, or an accepted request. */
  function Interpret(args: seq<string>): (r: Result<Request, UsageError>)
    ensures r.Ok? ==> |args| >= 1 && r.value.operation == args[0] && args[0] in MethodsSupported
    ensures r.Ok? && r.value.boolValue ==> args[0] == "promoted" && |args| >= 2 && ParseBool(args[1]) == Some(true)
    ensures r.Ok? && args[0] != "list" ==> |args| >= 2
  {
    if |args| == 0 || (|args| == 1 && args[0] != "list") then Err(BadUsage)
    else if args[0] !in MethodsSupported then Err(InvalidMethod)
    else if args[0] == "promoted" && ParseBool(args[1]).None? then Err(InvalidBool)
    else Ok(Request(args[0], ValueOf(args),
                    args[0] == "promoted" && ParseBool(args[1]) == Some(true)))
  }

  /** The validation prefix of `main` as the program runs it: the locals
      `method`, `value` and `boolValue` are assigned step by step and every
      failed check ends the run at once. */
  method ParseArgs(args: seq<string>) returns (r: Result<Request, UsageError>)
    ensures r == Interpret(args)
  {
    var operation: string := "";
    var value: string := "";
    var boolValue: bool := false;
    var argc := |args| + 1;

    if argc == 2 {
      operation := args[0];
      if operation != "list" {
        return Err(BadUsage);
      }
    } else if argc < 3 {
      return Err(BadUsage);
    }
    operation := args[0];
    var supported := IsStringInSlice(operation, MethodsSupported);
    if !supported {
      return Err(InvalidMethod);
    }
    if operation != "list" {
      value := args[1];
    }
    if operation == "promoted" {
      var parsed := ParseBool(value);
      if parsed.None? {
        return Err(InvalidBool);
      }
      boolValue := parsed.value;
    }
    if argc > 3 {
      value := Join(args[1..], " ");
    }
    return Ok(Request(operation, value, boolValue));
  }

  /** No arguments at all, or a single one other than "list", is a usage
      error; a lone "list" is accepted with an empty value. */
  lemma ShortArgumentLists(args: seq<string>)
    requires |args| <= 1
    ensures |args| == 0 ==> Interpret(args) == Err(BadUsage)
    ensures |args| == 1 ==> (Interpret(args).Ok? <==> args[0] == "list")
    ensures |args| == 1 && args[0] == "list" ==> Interpret(args) == Ok(Request("list", "", false))
  {
  }

  /** With a value present, a method outside the supported set is rejected
      as an invalid method, whatever follows it. */
  lemma UnknownMethodRejected(args: seq<string>)
    requires |args| >= 2
    ensures Interpret(args) == Err(InvalidMethod) <==> args[0] !in MethodsSupported
  {
  }

  /** Every accepted request names a supported method, so the loop's default
      branch is never taken after validation. */
  lemma AcceptedMethodIsSupported(args: seq<string>)
    requires Interpret(args).Ok?
    ensures Interpret(args).value.operation in MethodsSupported
    ensures Interpret(args).value.operation == args[0]
  {
  }

  /** "promoted" is accepted exactly when the first value token alone parses
      as a boolean, and the flag comes from that token even when more tokens
      follow. */
  lemma PromotedUsesFirstToken(args: seq<string>)
    requires |args| >= 2 && args[0] == "promoted"
    ensures Interpret(args).Ok? <==> ParseBool(args[1]).Some?
    ensures Interpret(args).Err? ==> Interpret(args).error == InvalidBool
    ensures Interpret(args).Ok? ==> Some(Interpret(args).value.boolValue) == ParseBool(args[1])
  {
  }

  /** Methods other than "promoted" leave the flag false. */
  lemma BoolValueOnlyForPromoted(args: seq<string>)
    requires Interpret(args).Ok? && args[0] != "promoted"
    ensures !Interpret(args).value.boolValue
  {
  }

  /** For the filtering methods the value is all tokens after the method
      joined with single spaces (a single token is itself); "list" keeps an
      empty value unless more than one token follows it. */
  lemma ValueIsJoinedTail(args: seq<string>)
    requires Interpret(args).Ok?
    ensures args[0] != "list" ==> Interpret(args).value.value == Join(args[1..], " ")
    ensures args[0] == "list" && |args| <= 2 ==> Interpret(args).value.value == ""
    ensures |args| >= 3 ==> Interpret(args).value.value == Join(args[1..], " ")
  {
  }

  /** A joined value is as long as its tokens together plus one separator
      between each pair of neighbours. */
  lemma {:induction false} JoinLength(parts: seq<string>, sep: string)
    requires |parts| >= 1
    ensures |Join(parts, sep)| == SumOfLengths(parts) + (|parts| - 1) * |sep|
  {
    if |parts| > 1 {
      JoinLength(parts[1..], sep);
    }
  }

  /** `strings.Join` builds its result left to right: appending one more
      token adds one separator and that token at the end. */
  lemma {:induction false} JoinAppend(parts: seq<string>, p: string, sep: string)
    requires |parts| >= 1
    ensures Join(parts + [p], sep) == Join(parts, sep) + sep + p
  {
    if |parts| == 1 {
      assert (parts + [p])[1..] == [p];
    } else {
      assert (parts + [p])[1..] == parts[1..] + [p];
      JoinAppend(parts[1..], p, sep);
    }
  }

  function SumOfLengths(parts: seq<string>): nat
  {
    if parts == [] then 0 else |parts[0]| + SumOfLengths(parts[1..])
  }

  /** `promoted true x` is accepted: the flag is parsed from "true" alone,
      and the value is "true x". */
  lemma PromotedWithTrailingToken()
    ensures Interpret(["promoted", "true", "x"]) == Ok(Request("promoted", "true x", true))
  {
    var args := ["promoted", "true", "x"];
    assert args[1..] == ["true", "x"];
    assert ["true", "x"][1..] == ["x"];
    assert Join(["true", "x"], " ") == "true" + " " + "x" == "true x";
    assert ValueOf(args) == "true x";
  }

  /** An unknown method and an unparseable boolean are both usage errors. */
  lemma RejectedInvocations()
    ensures Interpret(["foo", "bar"]) == Err(InvalidMethod)
    ensures Interpret(["promoted", "maybe"]) == Err(InvalidBool)
    ensures Interpret(["type"]) == Err(BadUsage)
    ensures Interpret([]) == Err(BadUsage)
  {
  }
}
