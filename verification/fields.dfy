/**
 * `parseData` of the Arduino sketch (src/arduino/message.cpp): the body
 * of a received frame is split on commas with `strtok` into a command name
 * and six integers read with `atoi`.
 */
module Fields {
  import opened Wrappers
  import opened CString

  const Delimiter: char := ','

  /** `command1` .. `command6`. */
  const CommandCount: nat := 6


  /** The parsed fields: `messageFromPC` and `command1` .. `command6`. */
  datatype Command = Command(name: seq<char>, commands: seq<int>)

  /**
   * `strtok` returned NULL where the sketch expected a field; the sketch
   * then passes NULL to `strcpy` or `atoi`, which is undefined behaviour.
   */
  datatype ParseError = MissingName | MissingCommand(index: nat)

  /** Reads `n` integer fields, the first of them being field number `first`. */
  function ParseInts(s: seq<char>, n: nat, first: nat): (r: Result<seq<int>, ParseError>)
    ensures r.Success? ==> |r.value| == n
    ensures r.Failure? ==> r.error.MissingCommand? && first <= r.error.index < first + n
    decreases n
  {
    if n == 0 then Success([])
    else
      match Strtok(s, Delimiter)
      case None => Failure(MissingCommand(first))
      case Some((tok, rest)) =>
        var tail :- ParseInts(rest, n - 1, first + 1);
        Success([Atoi(tok)] + tail)
  }

  /** `atoi` of every token. */
  function AtoiAll(toks: seq<seq<char>>): (vs: seq<int>)
    ensures |vs| == |toks|
  {
    if toks == [] then [] else [Atoi(toks[0])] + AtoiAll(toks[1..])
  }

  /** `ParseInts` reads the first `n` tokens, and fails at the first token that is missing. */
  ghost predicate ReadsTokens(s: seq<char>, n: nat, first: nat) {
    var r := ParseInts(s, n, first);
    var toks := Tokens(s, Delimiter);
    && (r.Success? <==> |toks| >= n)
    && (r.Success? ==> r.value == AtoiAll(toks[..n]))
    && (r.Failure? ==> r.error == MissingCommand(first + |toks|))
  }

  lemma ReadsTokensStep(s: seq<char>, n: nat, first: nat)
    requires n > 0 && Strtok(s, Delimiter).Some?
    requires ReadsTokens(Strtok(s, Delimiter).value.1, n - 1, first + 1)
    ensures ReadsTokens(s, n, first)
  {
    var toks := Tokens(s, Delimiter);
    var tok := Strtok(s, Delimiter).value.0;
    var rest := Strtok(s, Delimiter).value.1;
    StrtokIsFirstToken(s, Delimiter);
    var tail := ParseInts(rest, n - 1, first + 1);
    assert toks == [tok] + Tokens(rest, Delimiter);
    if tail.Success? {
      assert toks[..n] == [tok] + Tokens(rest, Delimiter)[..n - 1];
      assert toks[..n][1..] == Tokens(rest, Delimiter)[..n - 1];
    }
  }

  lemma ReadsTokensBase(s: seq<char>, n: nat, first: nat)
    requires n == 0 || Strtok(s, Delimiter).None?
    ensures ReadsTokens(s, n, first)
  {
    StrtokIsFirstToken(s, Delimiter);
  }

  lemma {:induction false} ParseIntsReadsTokens(s: seq<char>, n: nat, first: nat)
    ensures ReadsTokens(s, n, first)
    decreases n
  {
    if n > 0 && Strtok(s, Delimiter).Some? {
      ParseIntsReadsTokens(Strtok(s, Delimiter).value.1, n - 1, first + 1);
      ReadsTokensStep(s, n, first);
    } else {
      ReadsTokensBase(s, n, first);
    }
  }

  /**
   * `parseData`: the first token is the command name and the next six are
   * read with `atoi`; empty fields are skipped, as `strtok` does, and any
   * tokens after the seventh are ignored.
   */
  function ParseData(temp: seq<char>): (r: Result<Command, ParseError>)
    ensures r.Success? ==> |r.value.commands| == CommandCount && r.value.name != [] && Delimiter !in r.value.name
    ensures r.Failure? ==> r.error == MissingName || (r.error.MissingCommand? && 1 <= r.error.index <= CommandCount)
  {
    match Strtok(temp, Delimiter)
    case None => Failure(MissingName)
    case Some((name, rest)) =>
      var commands :- ParseInts(rest, CommandCount, 1);
      Success(Command(name, commands))
  }

  lemma SliceAfterHead<T>(x: T, t: seq<T>, k: nat)
    requires k <= |t|
    ensures ([x] + t)[1..k + 1] == t[..k]
  {
  }

  /** Reference reading of `parseData` through the token list of the body. */
  lemma {:induction false} ParseDataReadsTokens(temp: seq<char>)
    ensures var r := ParseData(temp);
      var toks := Tokens(temp, Delimiter);
      && (r.Success? <==> |toks| > CommandCount)
      && (r.Success? ==> r.value == Command(toks[0], AtoiAll(toks[1..CommandCount + 1])))
      && (toks == [] ==> r == Failure(MissingName))
      && (1 <= |toks| <= CommandCount ==> r == Failure(MissingCommand(|toks|)))
  {
    StrtokIsFirstToken(temp, Delimiter);
    var o := Strtok(temp, Delimiter);
    if o.Some? {
      var rest := o.value.1;
      var toks := Tokens(temp, Delimiter);
      assert toks == [o.value.0] + Tokens(rest, Delimiter);
      ParseIntsReadsTokens(rest, CommandCount, 1);
      if |toks| > CommandCount {
        SliceAfterHead(o.value.0, Tokens(rest, Delimiter), CommandCount);
      }
    }
  }
}
