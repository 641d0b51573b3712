/** The line parser: `[":" prefix SPACE] command [params]` (section 2.3.1 of
    RFC 2812), as far as the code implements it. A line is cut into tokens at
    every single space; a leading `:` token is the prefix; the next token,
    lower-cased, is the verb; only `join` has a parameter grammar. */
module Parser {
  import opened Wrappers
  import opened Tokens
  import opened Lexical
  import opened Commands

  /** Why a line was refused. `Malformed` and `Unrecognised` are the two
      `ParseError` variants and carry the `join_str_iter` rendering of the
      tokens left unread (or the empty line); `BadToken` is a validator's
      refusal, naming the refused text; `Unimplemented` is a verb whose arm is
      `todo!()`, naming that verb. */
  datatype ParseError =
    | Malformed(rest: string)
    | Unrecognised(rest: string)
    | BadToken(token: string)
    | Unimplemented(verb: string)

  /** Lower-casing as far as it can decide equality with the six ASCII verbs:
      `A`-`Z` and U+212A KELVIN SIGN (whose lower case is `k`) fold to ASCII
      lower case. Every other character either has no lower-case mapping or
      maps to non-ASCII text, so leaving it unchanged decides every comparison
      with an ASCII verb the same way. */
  function LowerChar(c: char): (l: char)
    ensures !('A' <= l <= 'Z')
    ensures 'a' <= l <= 'z' <==> IsAsciiLetter(c) || c == '\U{212A}'
    ensures l != c ==> 'A' <= c <= 'Z' || c == '\U{212A}'
  {
    if 'A' <= c <= 'Z' then (c as int + 32) as char
    else if c == '\U{212A}' then 'k'
    else c
  }

  /** `to_lowercase` of a word, character by character. */
  function Lowered(word: string): (r: string)
    ensures |r| == |word|
    ensures forall i | 0 <= i < |r| :: !('A' <= r[i] <= 'Z')
  {
    seq(|word|, i requires 0 <= i < |word| => LowerChar(word[i]))
  }

  /** The spellings of a lower-case ASCII word read independently of the
      folding: at each position the same letter, its upper-case ASCII form, or
      U+212A KELVIN SIGN where the word has `k`. */
  predicate SpellsVerb(w: string, v: string) {
    |w| == |v|
    && forall i | 0 <= i < |v| ::
         w[i] == v[i] || w[i] as int + 32 == v[i] as int || (v[i] == 'k' && w[i] == '\U{212A}')
  }

  /** A word is read as one of the six verbs exactly when it spells that verb
      in any mix of cases: `JOIN`, `join` and `JoIn` are all `join`. */
  lemma ReadAsVerb(w: string, v: string)
    requires v in Verbs
    ensures Lowered(w) == v <==> SpellsVerb(w, v)
  {
    assert forall i | 0 <= i < |v| :: 'a' <= v[i] <= 'z';
    if Lowered(w) == v {
      forall i | 0 <= i < |v|
        ensures w[i] == v[i] || w[i] as int + 32 == v[i] as int || (v[i] == 'k' && w[i] == '\U{212A}')
      {
        assert Lowered(w)[i] == LowerChar(w[i]);
      }
    }
    if SpellsVerb(w, v) {
      forall i | 0 <= i < |v| ensures Lowered(w)[i] == v[i] {
        assert Lowered(w)[i] == LowerChar(w[i]);
      }
    }
  }

  /** Lower-casing twice is lower-casing once. */
  lemma LoweredIdempotent(word: string)
    ensures Lowered(Lowered(word)) == Lowered(word)
  {
    var once := Lowered(word);
    forall i | 0 <= i < |once| ensures LowerChar(once[i]) == once[i] {
      assert once[i] == LowerChar(word[i]);
    }
  }

  function WithPrefix(prefix: Option<string>, kind: Result<CommandKind, ParseError>): Result<Command, ParseError> {
    match kind
    case Ok(k) => Ok(Command(prefix, k))
    case Err(e) => Err(e)
  }

  /** `.split(",").map(parse_channel).collect::<Result<Vec<String>>>()`: every
      name must be a channel; the list comes back unchanged, or the first
      refused name is reported. */
  function ParseChannels(names: seq<string>): (r: Result<seq<string>, ParseError>)
    ensures r.Ok? <==> forall i | 0 <= i < |names| :: IsChannel(names[i])
    ensures r.Ok? ==> r.value == names
    ensures r.Err? ==> exists i | 0 <= i < |names| ::
              r.error == BadToken(names[i]) && !IsChannel(names[i])
              && forall j | 0 <= j < i :: IsChannel(names[j])
    decreases |names|
  {
    if |names| == 0 then Ok([])
    else
      match ParseChannel(names[0])
      case Err(bad) => Err(BadToken(bad))
      case Ok(channel) =>
        match ParseChannels(names[1..])
        case Err(e) =>
          assert forall i | 0 <= i < |names| - 1 :: names[1..][i] == names[i + 1];
          Err(e)
        case Ok(channels) => Ok([channel] + channels)
  }

  /** `parse_join`, given the tokens after the verb. */
  function ParseJoin(params: seq<string>): (r: Result<CommandKind, ParseError>)
    ensures r.Ok? ==> r.value.Join?
  {
    if |params| == 0 then Err(Unrecognised(JoinStrIter(params)))
    else if params[0] == "0" then Ok(Join(["0"], None))
    else
      match ParseChannels(Split(params[0], ','))
      case Err(e) => Err(e)
      case Ok(channels) =>
        var keys := if |params| >= 2 then Some(Split(params[1], ',')) else None;
        if |params| >= 3 then Err(Malformed(JoinStrIter(params[3..])))
        else Ok(Join(channels, keys))
  }

  /** `parse_command`, given the tokens from the verb on. */
  function ParseCommand(tokens: seq<string>): (r: Result<CommandKind, ParseError>)
    ensures |tokens| == 0 ==> r == Err(Malformed(""))
    ensures |tokens| >= 1 && Lowered(tokens[0]) == "join" ==> r == ParseJoin(tokens[1..])
    ensures |tokens| >= 1 && Lowered(tokens[0]) in Verbs && Lowered(tokens[0]) != "join" ==>
              r == Err(Unimplemented(Lowered(tokens[0])))
    ensures r.Ok? ==> |tokens| >= 1 && Lowered(tokens[0]) == KindVerb(r.value)
    ensures r.Err? && r.error.Unimplemented? ==>
              |tokens| >= 1 && Lowered(tokens[0]) == r.error.verb && r.error.verb in Verbs && r.error.verb != "join"
    ensures |tokens| >= 1 && Lowered(tokens[0]) !in Verbs ==> r == Err(Unrecognised(JoinStrIter(tokens[1..])))
  {
    if |tokens| == 0 then Err(Malformed(JoinStrIter(tokens)))
    else
      var verb := Lowered(tokens[0]);
      if verb == "join" then ParseJoin(tokens[1..])
      else if verb in {"nick", "user", "ping", "privmsg", "quit"} then Err(Unimplemented(verb))
      else Err(Unrecognised(JoinStrIter(tokens[1..])))
  }

  /** `parse_prefix`, given the first token with its leading `:`: the token
      without that `:`, when it is a servername or else a nick/user/host
      prefix. */
  function ParsePrefix(token: string): (r: Result<string, ParseError>)
    requires |token| >= 1
    ensures r.Ok? <==> AllShortnames(Split(token[1..], '.')) || IsNickPrefix(token[1..])
    ensures r.Ok? ==> r.value == token[1..]
    ensures r.Err? ==> r.error == BadToken(token[1..])
  {
    var prefix := token[1..];
    match ParseServername(prefix)
    case Ok(name) => Ok(name)
    case Err(_) =>
      match ParseNickPrefix(prefix)
      case Ok(origin) => Ok(origin)
      case Err(_) => Err(BadToken(prefix))
  }

  /** `try_parse_from_line`. */
  function ParseLine(line: string): (r: Result<Command, ParseError>)
    ensures |line| == 0 ==> r == Err(Malformed(""))
    ensures r.Ok? ==> |line| >= 1 && (r.value.prefix.Some? <==> line[0] == ':')
    ensures r.Ok? && r.value.prefix.Some? ==>
              ' ' !in r.value.prefix.value && (IsServername(r.value.prefix.value) || IsNickPrefix(r.value.prefix.value))
  {
    if |line| == 0 then Err(Malformed(line))
    else
      var tokens := Split(line, ' ');
      if line[0] == ':' then
        match ParsePrefix(tokens[0])
        case Err(e) => Err(e)
        case Ok(prefix) =>
          ServernameLabels(prefix);
          assert ' ' !in tokens[0];
          WithPrefix(Some(prefix), ParseCommand(tokens[1..]))
      else
        WithPrefix(None, ParseCommand(tokens))
  }

  // ---------------------------------------------------------------------
  // Properties of the parser

  /** A line whose first character is `:` has its first word, without the
      `:`, as prefix. The first word must be a servername or a nick/user/host
      prefix, or the line is refused naming it; a valid prefix with nothing
      after it is malformed; otherwise the rest of the line is parsed as a
      command carrying that prefix. `n` is the position of the first space
      (or the length of the line). */
  lemma PrefixIsFirstWord(line: string, n: nat)
    requires |line| >= 1 && line[0] == ':'
    requires n <= |line| && ' ' !in line[..n] && (n == |line| || line[n] == ' ')
    ensures n >= 1
    ensures var p := line[1..n];
      && (ParseLine(line).Ok? ==> ParseLine(line).value.prefix == Some(p))
      && (!IsServername(p) && !IsNickPrefix(p) ==> ParseLine(line) == Err(BadToken(p)))
      && ((IsServername(p) || IsNickPrefix(p)) && n == |line| ==> ParseLine(line) == Err(Malformed("")))
      && ((IsServername(p) || IsNickPrefix(p)) && n < |line| ==>
            ParseLine(line) == WithPrefix(Some(p), ParseCommand(Split(line[n + 1..], ' '))))
  {
    var tokens := Split(line, ' ');
    var p := line[1..n];
    ServernameLabels(p);
    FirstWord(line, n);
    assert tokens[0][1..] == p;
  }

  /** The first token of a line is its text up to the first space; the other
      tokens are those of the text after that space. */
  lemma FirstWord(line: string, n: nat)
    requires n <= |line| && ' ' !in line[..n] && (n == |line| || line[n] == ' ')
    ensures Split(line, ' ')[0] == line[..n]
    ensures n == |line| ==> Split(line, ' ') == [line]
    ensures n < |line| ==> Split(line, ' ')[1..] == Split(line[n + 1..], ' ')
  {
    if n == |line| {
      assert line[..n] == line;
      SplitWithoutSep(line, ' ');
    } else {
      SplitAtFirst(line, n, ' ');
    }
  }

  /** A line built from space-free tokens whose first token does not start
      with `:` carries no prefix and is parsed from exactly those tokens. */
  lemma LineOfTokens(tokens: seq<string>)
    requires |tokens| >= 2 || (|tokens| == 1 && |tokens[0]| >= 1)
    requires |tokens[0]| == 0 || tokens[0][0] != ':'
    requires forall k | 0 <= k < |tokens| :: ' ' !in tokens[k]
    ensures ParseLine(JoinWith(tokens, ' ')) == WithPrefix(None, ParseCommand(tokens))
  {
    SplitJoin(tokens, ' ');
    var line := JoinWith(tokens, ' ');
    if tokens[0] == "" {
      assert line == tokens[0] + [' '] + JoinWith(tokens[1..], ' ');
      assert line[0] == ' ';
    } else {
      assert tokens[0] <= line by {
        assert Split(line, ' ')[0] <= line;
      }
      assert line[0] == tokens[0][0];
    }
  }

  /** The verb is matched without regard to case: two verb tokens that agree
      after lower-casing give the same outcome. */
  lemma VerbCaseInsensitive(a: string, b: string, params: seq<string>)
    requires |a| == |b|
    requires forall i | 0 <= i < |a| :: LowerChar(a[i]) == LowerChar(b[i])
    ensures ParseCommand([a] + params) == ParseCommand([b] + params)
  {
    assert Lowered(a) == Lowered(b);
    assert ([a] + params)[1..] == params && ([b] + params)[1..] == params;
  }

  /** The same on whole lines: replacing the verb word by one that agrees
      with it after lower-casing leaves the outcome unchanged. */
  lemma VerbCaseInsensitiveLine(a: string, b: string, rest: string)
    requires |a| == |b| >= 1 && a[0] != ':' && b[0] != ':' && ' ' !in a && ' ' !in b
    requires forall i | 0 <= i < |a| :: LowerChar(a[i]) == LowerChar(b[i])
    ensures ParseLine(a + " " + rest) == ParseLine(b + " " + rest)
  {
    SplitAfterHead(a, rest, ' ');
    SplitAfterHead(b, rest, ' ');
    VerbCaseInsensitive(a, b, Split(rest, ' '));
    assert (a + " " + rest)[0] == a[0] && (b + " " + rest)[0] == b[0];
  }

  /** An unknown verb is reported with the unread tokens, which the payload
      holds in order, each followed by one space. */
  lemma UnrecognisedCarriesRest(tokens: seq<string>)
    requires |tokens| >= 1 && Lowered(tokens[0]) !in Verbs
    requires forall k | 0 <= k < |tokens| :: ' ' !in tokens[k]
    ensures ParseCommand(tokens).Err? && ParseCommand(tokens).error.Unrecognised?
    ensures Split(ParseCommand(tokens).error.rest, ' ') == tokens[1..] + [""]
  {
    SplitJoinStrIter(tokens[1..]);
  }

  /** `JOIN 0` leaves every channel: the parse stops at the `0` whatever follows. */
  lemma JoinZero(params: seq<string>)
    requires |params| >= 1 && params[0] == "0"
    ensures ParseJoin(params) == Ok(Join(["0"], None))
  {
  }

  /** Any other JOIN: the channels are the comma-separated pieces of the first
      parameter, in order, each a valid channel, and the keys the pieces of
      the optional second parameter, unchecked and not matched in number to
      the channels; joining either list with commas gives its parameter back.
      One invalid channel refuses the whole line, naming the first invalid
      piece; a third parameter makes a line with valid channels malformed. */
  lemma JoinParams(params: seq<string>)
    requires |params| >= 1 && params[0] != "0"
    ensures var names := Split(params[0], ',');
      var valid := forall i | 0 <= i < |names| :: IsChannel(names[i]);
      var r := ParseJoin(params);
      && (r.Ok? <==> valid && |params| <= 2)
      && (r.Ok? ==> r.value.channels == names && JoinWith(r.value.channels, ',') == params[0])
      && (r.Ok? && |params| == 1 ==> r.value.keys == None)
      && (r.Ok? && |params| == 2 ==> r.value.keys.Some? && r.value.keys.value == Split(params[1], ',')
                                       && JoinWith(r.value.keys.value, ',') == params[1])
      && (valid && |params| >= 3 ==> r == Err(Malformed(JoinStrIter(params[3..]))))
      && (!valid ==> r.Err? && exists i | 0 <= i < |names| ::
                       r.error == BadToken(names[i]) && !IsChannel(names[i])
                       && forall j | 0 <= j < i :: IsChannel(names[j]))
  {
    JoinSplit(params[0], ',');
    if |params| >= 2 {
      JoinSplit(params[1], ',');
    }
  }

  /** A whole line whose first word is read as `join` is parsed by the JOIN
      grammar from the words after it, with no prefix. With JoinZero and
      JoinParams this fixes the outcome of every such line, however many
      words follow. */
  lemma JoinLine(verb: string, params: seq<string>)
    requires Lowered(verb) == "join" && ' ' !in verb
    requires forall k | 0 <= k < |params| :: ' ' !in params[k]
    ensures ParseLine(JoinWith([verb] + params, ' ')) == WithPrefix(None, ParseJoin(params))
  {
    JoinVerbShape(verb);
    var tokens := [verb] + params;
    assert tokens[1..] == params;
    forall k | 0 <= k < |tokens| ensures ' ' !in tokens[k] {
      if k > 0 {
        assert tokens[k] == params[k - 1];
      }
    }
    LineOfTokens(tokens);
    assert ParseCommand(tokens) == ParseJoin(params);
  }

  /** JOIN without parameters is refused as unrecognised. */
  lemma JoinWithoutParams()
    ensures ParseJoin([]) == Err(Unrecognised(""))
  {
  }

  /** The tokens of a JOIN line: the verb, the comma-joined channels and, when
      there are keys, the comma-joined keys. */
  function JoinTokens(verb: string, channels: seq<string>, keys: Option<seq<string>>): seq<string> {
    [verb, JoinWith(channels, ',')] + (if keys.Some? then [JoinWith(keys.value, ',')] else [])
  }

  /** A verb token the parser reads as `join`: it is never empty and never
      starts with `:`. */
  lemma JoinVerbShape(verb: string)
    requires Lowered(verb) == "join"
    ensures |verb| == 4 && verb[0] != ':'
  {
    assert Lowered(verb)[0] == LowerChar(verb[0]);
  }

  /** The comma-joined parameter of a non-empty list of valid channels: one
      space-free token, not `0`, that the channel parse takes back to the list. */
  lemma ChannelsParam(channels: seq<string>)
    requires |channels| >= 1 && forall i | 0 <= i < |channels| :: IsChannel(channels[i])
    ensures var param := JoinWith(channels, ',');
      ' ' !in param && param != "0" && Split(param, ',') == channels
      && ParseChannels(Split(param, ',')) == Ok(channels)
  {
    forall i | 0 <= i < |channels| ensures ',' !in channels[i] && ' ' !in channels[i] {
      ChannelCharacters(channels[i]);
    }
    JoinWithAvoids(channels, ',', ' ');
    SplitJoin(channels, ',');
    JoinWithStartsWithHead(channels, ',');
    assert channels[0][0] == JoinWith(channels, ',')[0];
  }

  /** Round trip of JOIN lines: a JOIN verb in any case, a comma-joined list of
      valid channels and optionally a comma-joined list of keys free of commas
      and spaces, written as one line, parse back to exactly those lists. */
  lemma JoinLineRoundTrip(verb: string, channels: seq<string>, keys: Option<seq<string>>)
    requires Lowered(verb) == "join" && ' ' !in verb
    requires |channels| >= 1 && forall i | 0 <= i < |channels| :: IsChannel(channels[i])
    requires keys.Some? ==> |keys.value| >= 1
    requires keys.Some? ==> forall i | 0 <= i < |keys.value| :: ',' !in keys.value[i] && ' ' !in keys.value[i]
    ensures ParseLine(JoinWith(JoinTokens(verb, channels, keys), ' ')) == Ok(Command(None, Join(channels, keys)))
  {
    JoinVerbShape(verb);
    ChannelsParam(channels);
    var tokens := JoinTokens(verb, channels, keys);
    if keys.Some? {
      JoinWithAvoids(keys.value, ',', ' ');
      SplitJoin(keys.value, ',');
    }
    LineOfTokens(tokens);
  }

  lemma LineOfFourWords(a: string, b: string, c: string, d: string)
    requires |a| >= 1 && a[0] != ':'
    requires ' ' !in a && ' ' !in b && ' ' !in c && ' ' !in d
    ensures ParseLine(JoinWith([a, b, c, d], ' ')) == WithPrefix(None, ParseCommand([a, b, c, d]))
  {
    LineOfTokens([a, b, c, d]);
  }

  /** A fourth word on a JOIN line of valid channels makes the line
      malformed, whatever the keys and that word are. The payload renders the
      words after the fourth, so here it is empty. */
  lemma JoinLineFourthWord(verb: string, channels: seq<string>, keys: string, fourth: string)
    requires Lowered(verb) == "join" && ' ' !in verb
    requires |channels| >= 1 && forall i | 0 <= i < |channels| :: IsChannel(channels[i])
    requires ' ' !in keys && ' ' !in fourth
    ensures ParseLine(JoinWith([verb, JoinWith(channels, ','), keys, fourth], ' ')) == Err(Malformed(""))
  {
    JoinVerbShape(verb);
    ChannelsParam(channels);
    FourWordJoin(verb, JoinWith(channels, ','), keys, fourth);
  }

  lemma FourWordJoin(verb: string, chans: string, keys: string, fourth: string)
    requires |verb| >= 1 && verb[0] != ':' && Lowered(verb) == "join"
    requires ' ' !in verb && ' ' !in chans && ' ' !in keys && ' ' !in fourth
    requires chans != "0" && ParseChannels(Split(chans, ',')).Ok?
    ensures ParseLine(JoinWith([verb, chans, keys, fourth], ' ')) == Err(Malformed(""))
  {
    var tokens := [verb, chans, keys, fourth];
    LineOfFourWords(verb, chans, keys, fourth);
    var params := [chans, keys, fourth];
    assert tokens[1..] == params && params[3..] == [];
    assert ParseCommand(tokens) == ParseJoin(params);
  }

  /** The channel list is refused naming exactly its first invalid name. */
  lemma FirstBadChannel(names: seq<string>, i: nat)
    requires i < |names| && !IsChannel(names[i]) && forall j | 0 <= j < i :: IsChannel(names[j])
    ensures ParseChannels(names) == Err(BadToken(names[i]))
  {
    var r := ParseChannels(names);
    var first :| 0 <= first < |names| && r.error == BadToken(names[first]) && !IsChannel(names[first])
                 && forall j | 0 <= j < first :: IsChannel(names[j]);
    assert first == i;
  }

  lemma LineOfTwoWords(a: string, b: string)
    requires |a| >= 1 && a[0] != ':' && ' ' !in a && ' ' !in b
    ensures ParseLine(JoinWith([a, b], ' ')) == WithPrefix(None, ParseCommand([a, b]))
  {
    LineOfTokens([a, b]);
  }

  /** A JOIN line naming an invalid channel is refused, naming the first
      invalid name; the names before it are valid, the ones after it are not
      looked at. */
  lemma JoinLineBadChannel(verb: string, names: seq<string>, i: nat)
    requires Lowered(verb) == "join" && ' ' !in verb
    requires forall k | 0 <= k < |names| :: ',' !in names[k] && ' ' !in names[k]
    requires i < |names| && !IsChannel(names[i]) && forall j | 0 <= j < i :: IsChannel(names[j])
    requires JoinWith(names, ',') != "0"
    ensures ParseLine(JoinWith([verb, JoinWith(names, ',')], ' ')) == Err(BadToken(names[i]))
  {
    var param := JoinWith(names, ',');
    JoinVerbShape(verb);
    JoinWithAvoids(names, ',', ' ');
    SplitJoin(names, ',');
    LineOfTwoWords(verb, param);
    assert [verb, param][1..] == [param];
    FirstBadChannel(names, i);
    assert ParseJoin([param]) == Err(BadToken(names[i]));
  }

  /** A valid prefix only adds the origin: a line `:origin rest`, where origin
      is a servername or nick/user/host prefix and rest does not start with
      `:`, parses as rest does, with origin as prefix. */
  lemma PrefixAddsOrigin(origin: string, rest: string)
    requires IsServername(origin) || IsNickPrefix(origin)
    requires ' ' !in origin
    requires |rest| >= 1 && rest[0] != ':'
    ensures ParseLine(":" + origin + " " + rest)
         == match ParseLine(rest)
            case Ok(c) => Ok(Command(Some(origin), c.kind))
            case Err(e) => Err(e)
  {
    var line := ":" + origin + " " + rest;
    var n := |origin| + 1;
    assert line[..n] == ":" + origin;
    assert line[1..n] == origin;
    assert line[n + 1..] == rest;
    PrefixIsFirstWord(line, n);
  }
}
