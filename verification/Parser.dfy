// The query parser of the command line client (client/src/impl/parser.cpp).
module Parsing {
  import opened Bytes

  datatype Command = Invalid | Search | Insert | Delete | Quit
  datatype Query = Query(valid: bool, command: Command, key: Key, payload: seq<string>)
  datatype ParserState = ExpectCommand | ReadCommand | ExpectKey | ReadKey | ExpectPayload | ReadPayload

  // The parser's fields apart from the input, and what one round of its loop does.
  datatype Machine = Machine(state: ParserState, temp: string, result: Query)
  datatype Step = Stop(result: Query) | Go(next: Machine, consumed: nat)

  const NO_QUERY := Query(false, Invalid, 0, [])

  predicate IsAlpha(c: char) {
    'a' <= c <= 'z' || 'A' <= c <= 'Z'
  }

  predicate IsDigit(c: char) {
    '0' <= c <= '9'
  }

  function ToLower(c: char): char {
    if 'A' <= c <= 'Z' then c - 'A' + 'a' else c
  }

  function CommandOf(name: string): Command {
    if name == "search" then Search
    else if name == "insert" then Insert
    else if name == "delete" then Delete
    else if name == "quit" then Quit
    else Invalid
  }

  // The number that a run of digits denotes; more than 64 bits is an error.
  function Number(digits: string): nat {
    if digits == "" then 0 else
    var d := digits[|digits| - 1];
    10 * Number(digits[..|digits| - 1]) + (if IsDigit(d) then (d - '0') as nat else 0)
  }

  // ----- one round of the loop -----

  function StepOf(m: Machine, s: string): (r: Step)
    requires s != ""
  {
    var c, o := s[0], m.result;
    match m.state
    case ExpectCommand =>
      if c == ' ' || c == '\n' then Go(m, 1)
      else if IsAlpha(c) then Go(m.(state := ReadCommand), 0)
      else Stop(o)
    case ReadCommand =>
      if IsAlpha(c) then Go(m.(temp := m.temp + [ToLower(c)]), 1)
      else if c == ' ' && CommandOf(m.temp) != Invalid then
        Go(Machine(ExpectKey, "", o.(command := CommandOf(m.temp))), 1)
      else Stop(o)
    case ExpectKey =>
      if c == ' ' then Go(m, 1)
      else if IsDigit(c) then Go(m.(state := ReadKey), 0)
      else Stop(o)
    case ReadKey =>
      if IsDigit(c) then Go(m.(temp := m.temp + [c]), 1)
      else if c == ' ' && Number(m.temp) < KEY_LIMIT then Go(Machine(ExpectPayload, "", o.(key := Number(m.temp))), 1)
      else if c == ';' && Number(m.temp) < KEY_LIMIT then Stop(o.(key := Number(m.temp), valid := true))
      else Stop(o)
    case ExpectPayload =>
      if c == ' ' then Go(m, 1)
      else if c == '"' then Go(m.(state := ReadPayload), 1)
      else if c == ';' then Stop(o.(valid := true))
      else Stop(o)
    case ReadPayload =>
      if c == '\\' then (if |s| > 1 then Go(m.(temp := m.temp + [s[1]]), 2) else Stop(o))
      else if c == '"' then Go(Machine(ExpectPayload, "", o.(payload := o.payload + [m.temp])), 1)
      else Go(m.(temp := m.temp + [c]), 1)
  }

  // Two of the states may pass on without consuming a character.
  function Rank(state: ParserState): nat {
    if state == ExpectCommand || state == ExpectKey then 1 else 0
  }

  lemma StepShrinks(m: Machine, s: string)
    requires s != ""
    ensures match StepOf(m, s)
            case Stop(_) => true
            case Go(m', k) => k <= |s| && 2 * (|s| - k) + Rank(m'.state) < 2 * |s| + Rank(m.state)
  {
    hide Number, CommandOf, ToLower, IsAlpha, IsDigit;
  }

  function Run(m: Machine, s: string): Query
    decreases 2 * |s| + Rank(m.state)
  {
    if s == "" then m.result else
    StepShrinks(m, s);
    match StepOf(m, s)
    case Stop(o) => o
    case Go(m', k) => Run(m', s[k..])
  }

  class Parser {
    var state: ParserState
    const query: string
    var iter: nat
    var temp: string
    var result: Query

    ghost function Value(): Machine
      reads this
    {
      Machine(state, temp, result)
    }

    constructor (query: string)
      ensures this.query == query && iter == 0 && Value() == Machine(ExpectCommand, "", NO_QUERY)
    {
      this.query, iter, state, temp, result := query, 0, ExpectCommand, "", NO_QUERY;
    }

    // The letters and digits of the command and the key.
    method StepWord(c: char) returns (stop: bool)
      requires iter < |query| && c == query[iter] && (state == ReadCommand || state == ReadKey)
      modifies this
      ensures iter <= |query| && Follows(StepOf(old(Value()), query[old(iter)..]), old(iter), stop)
    {
      hide Number, CommandOf, ToLower, IsAlpha, IsDigit;
      stop := false;
      if state == ReadCommand {
        if IsAlpha(c) {
          temp, iter := temp + [ToLower(c)], iter + 1;
        } else if c == ' ' && CommandOf(temp) != Invalid {
          result := result.(command := CommandOf(temp));
          temp, state, iter := "", ExpectKey, iter + 1;
        } else {
          stop := true;
        }
      } else if IsDigit(c) {
        temp, iter := temp + [c], iter + 1;
      } else if c == ' ' && Number(temp) < KEY_LIMIT {
        result := result.(key := Number(temp));
        state, iter, temp := ExpectPayload, iter + 1, "";
      } else {
        if c == ';' && Number(temp) < KEY_LIMIT {
          result := result.(key := Number(temp), valid := true);
        }
        stop := true;
      }
    }

    // The separators before the command, the key and each payload.
    method StepGap(c: char) returns (stop: bool)
      requires iter < |query| && c == query[iter]
               && (state == ExpectCommand || state == ExpectKey || state == ExpectPayload)
      modifies this
      ensures iter <= |query| && Follows(StepOf(old(Value()), query[old(iter)..]), old(iter), stop)
    {
      hide IsAlpha, IsDigit;
      stop := false;
      if c == ' ' || (state == ExpectCommand && c == '\n') {
        iter := iter + 1;
      } else if state == ExpectCommand && IsAlpha(c) {
        state := ReadCommand;
      } else if state == ExpectKey && IsDigit(c) {
        state := ReadKey;
      } else if state == ExpectPayload && c == '"' {
        state, iter := ReadPayload, iter + 1;
      } else {
        if state == ExpectPayload && c == ';' {
          result := result.(valid := true);
        }
        stop := true;
      }
    }

    // Inside a quoted payload.
    method StepPayload(c: char) returns (stop: bool)
      requires iter < |query| && c == query[iter] && state == ReadPayload
      modifies this
      ensures iter <= |query| && Follows(StepOf(old(Value()), query[old(iter)..]), old(iter), stop)
    {
      stop := false;
      if c == '\\' {
        if iter + 1 < |query| {
          temp, iter := temp + [query[iter + 1]], iter + 2;
        } else {
          iter, stop := iter + 1, true;
        }
      } else if c == '"' {
        result := result.(payload := result.payload + [temp]);
        temp, iter, state := "", iter + 1, ExpectPayload;
      } else {
        temp, iter := temp + [c], iter + 1;
      }
    }

    ghost predicate Follows(step: Step, was: nat, stop: bool)
      reads this
    {
      match step
      case Stop(o) => stop && result == o
      case Go(m, k) => !stop && Value() == m && iter == was + k
    }

    method ParseQuery()
      requires iter <= |query|
      modifies this
      ensures result == Run(old(Value()), query[old(iter)..])
    {
      hide StepOf;
      while iter < |query|
        invariant iter <= |query| && Run(Value(), query[iter..]) == Run(old(Value()), query[old(iter)..])
        decreases 2 * (|query| - iter) + Rank(state)
      {
        var c := query[iter];
        ghost var m, was := Value(), iter;
        StepShrinks(m, query[was..]);
        var stop;
        match state {
          case ExpectCommand | ExpectKey | ExpectPayload =>
            stop := StepGap(c);
          case ReadCommand | ReadKey =>
            stop := StepWord(c);
          case ReadPayload =>
            stop := StepPayload(c);
        }
        if stop {
          return;
        }
        assert query[was..][iter - was..] == query[iter..];
      }
      assert query[iter..] == "";
    }
  }
}
