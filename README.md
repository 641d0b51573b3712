# rust-irc line parser, in Dafny

This project models the message parser of the `rust-irc` chat server.
The parser turns one line of the IRC client protocol,
`[":" prefix SPACE] command [params]` (section 2.3.1 of RFC 2812), into a
`Command`. It also models the command value the parser produces and the
table of numeric error replies (section 5.2 of RFC 2812) that the server
draws its error codes from.

The modules follow the source:

- `Tokens` models cutting a line at every single space (`str::split`), the
  comma split of parameter lists and the `join_str_iter` fold that renders
  unread tokens into an error payload.
- `Lexical` models the three regular expressions (servername, nick/user/host
  prefix, channel) as predicates over characters, and `regex_match` as
  `RegexMatch`.
- `Commands` models the `Command` and `CommandKind` types.
- `Parser` models `try_parse_from_line`, `parse_prefix`, `parse_command` and
  `parse_join`. It returns a `Result` whose error is one of:
  - `Malformed` and `Unrecognised`, the two `ParseError` variants;
  - `BadToken`, a validator refusing a token;
  - `Unimplemented`, a verb whose arm is `todo!()`.
- `Errors` models `IrcError` and `numeric_code`.
- `ParserExamples` holds the lines of the server's unit tests and a few lines
  at the edges of the grammar, each derived from the general lemmas.

Behaviour of the code as written, which the model keeps:

- The line terminator is not stripped, so a trailing CR LF stays in the last
  token.
- Tokens are cut at every single space, so two spaces give an empty token,
  and a line starting with a space has the empty word as its verb.
- Only `join` has a parameter grammar.
  - `JOIN 0` gives the channel list `["0"]`, whatever follows it.
  - Keys are neither validated nor matched in number to the channels.
  - A third parameter makes the line malformed. The payload renders only the
    words after it.
- In the prefix pattern the `|` binds `@` to the hostname alternative only.
  A host address is therefore accepted with no `@` before it
  (`n!u2001:DB8::1`).
  - Directly after a nickname, `@` followed by an IPv6 address is refused
    (`n@2001:DB8::1`).
  - With a user part, the same address is accepted, because the user class
    holds `@` and digits: in `n!u@2001:DB8::1` the user part is `u@200` and
    `1:DB8::1` is read as an address glued to it.
  - An IPv4 address after `@` is accepted, as a hostname (`n@1.2.3.4`).
- The IPv4 form ends in exactly one digit.
- The hostname alternative accepts any letters, digits, `-` and `.` after a
  first letter or digit.
- The verb is lower-cased before it is compared. For the six ASCII verbs only
  `A`-`Z` and U+212A KELVIN SIGN can matter, and that is all `LowerChar` folds.
- Channel names have no length bound.
- BELL (0x07) is a valid channel and user character.
- A servername label may end in a hyphen.
- `JOIN` with no parameters is refused as unrecognised.
- `User` carries no mode field.

## Model

| member | source | states |
|---|---|---|
| Tokens.Split | src/server/parser.rs:39 | `split(" ")` always yields at least one piece, no piece holds the separator, and the first piece is the text up to the first separator |
| Tokens.JoinSplit | src/server/parser.rs:135-139 | joining the pieces of a split with the separator gives the original text back |
| Tokens.SplitJoin | src/server/parser.rs:135-139 | splitting a join of separator-free pieces gives the pieces back |
| Tokens.SplitWithoutSep | src/server/parser.rs:39 | text without the separator is one piece |
| Tokens.SplitAfterHead | src/server/parser.rs:28-34 | a separator-free head followed by the separator is the first piece; the remaining pieces are those of the text after it |
| Tokens.SplitAtFirst | src/server/parser.rs:28-34 | the text before the first separator is the first token; the rest are the tokens of the text after it |
| Tokens.JoinStrIter | src/server/parser.rs:18-20 | `join_str_iter`: the rendering is empty exactly when there are no tokens, and otherwise ends in a space |
| Tokens.JoinStrIterIsSpaceJoin | src/server/parser.rs:18-20 | `join_str_iter` is the space-join of the tokens plus one trailing space, and empty for no tokens |
| Tokens.SplitJoinStrIter | src/server/parser.rs:18-20 | re-splitting a `join_str_iter` rendering of space-free tokens gives the tokens back, then one empty piece |
| Tokens.JoinWithAvoids | src/server/parser.rs:135-139 | a character other than the separator occurs in a join only if some piece holds it |
| Lexical.RegexMatch | src/server/parser.rs:45-61 | succeeds exactly when the pattern accepts the text, returns the text unchanged, and the failure names the text |
| Lexical.HostnameFrom | src/server/parser.rs:102 | the servername pattern read left to right; an accepted text holds only letters, digits, `-` and `.`, starts with a letter or digit when scanned from a label start, and has a letter or digit after every `.` |
| Lexical.IsServername | src/server/parser.rs:102 | an accepted servername is non-empty, starts with a letter or digit, does not end in `.`, holds only letters, digits, `-` and `.`, and every `.` is followed by a letter or digit |
| Lexical.ParseServername | src/server/parser.rs:99-105 | accepts exactly the texts whose dot-separated labels are all shortnames, and returns the text |
| Lexical.ServernameLabels | src/server/parser.rs:102 | the servername pattern accepts a text if and only if each of its dot-separated labels starts with a letter or digit and holds only letters, digits and `-` |
| Lexical.TwoLabelServername | src/server/parser.rs:102 | two shortnames joined by a dot form a servername |
| Lexical.ServernameTrailingHyphen | src/server/parser.rs:102 | `irc.example-` is accepted: a label may end in a hyphen |
| Lexical.ServernameEmptyLabels | src/server/parser.rs:102 | `a..b`, `.a`, `a.` and the empty text are refused |
| Lexical.IsNickPrefix | src/server/parser.rs:79-89 | the nick/user/host pattern: a nickname of one to nine characters, then nothing, a host part, or `!user` and a host part; an accepted text starts with a letter or special character |
| Lexical.NickPrefixAvoids | src/server/parser.rs:79-89 | a nick/user/host prefix holds no space, NUL, CR or LF |
| Lexical.PrefixTailAvoids | src/server/parser.rs:81-88 | what follows the nickname holds no space, NUL, CR or LF |
| Lexical.HostPartAvoids | src/server/parser.rs:83-88 | a host part holds no space, NUL, CR or LF |
| Lexical.Ip4Avoids | src/server/parser.rs:86 | an IPv4 form holds no space, NUL, CR or LF |
| Lexical.ParseNickPrefix | src/server/parser.rs:76-92 | accepts exactly the texts the nick/user/host pattern matches, and returns the text |
| Lexical.NickUserHostAccepted | src/server/parser.rs:79-89 | every `nick!user@host` with a valid nickname, user and hostname is accepted |
| Lexical.NickUserHostOneWord | src/server/parser.rs:79-89 | such an origin holds no space, so it is one token of a line |
| Lexical.NicknameEndsBeforeAt | src/server/parser.rs:80 | no nickname holds `@`, so a nickname ends before the first `@` |
| Lexical.AddressWithoutAtAccepted | src/server/parser.rs:82-88 | `n!u2001:DB8::1` is accepted, the address glued to the user part with no `@`; so is `n!u@2001:DB8::1`, whose user part takes `u@200` |
| Lexical.AddressAfterAtRefused | src/server/parser.rs:83-88 | a one-character nickname directly followed by `@` and a host holding `:` is refused both as a nick/user/host prefix and as a servername |
| Lexical.UserThenAddressAccepted | src/server/parser.rs:80-88 | a nickname, `!`, a user part and an IPv4 or IPv6 address glued to it, with no `@`, are accepted |
| Lexical.Ip4AfterAtAccepted | src/server/parser.rs:84 | `n@1.2.3.4` is accepted through the hostname alternative |
| Lexical.IsChannel | src/server/parser.rs:156 | the channel pattern: `#`, `+` or `&`, or `!` with a five-character `[A-Z0-9]` id not followed by a word character, then one or two chanstrings around a `:`; an accepted text has at least two characters and starts with one of the four sigils |
| Lexical.ParseChannel | src/server/parser.rs:153-159 | accepts exactly the texts the channel pattern matches and returns them; an accepted channel holds no comma, space, CR or LF; the failure names the text |
| Lexical.ChanBodyParts | src/server/parser.rs:156 | the text after the sigil matches if and only if it splits at `:` into one or two non-empty chanstrings |
| Lexical.ChanBodySplits | src/server/parser.rs:156 | a matching body splits at `:` into at most two chanstrings |
| Lexical.ChanBodyFromSplit | src/server/parser.rs:156 | text that splits at `:` into one or two chanstrings matches |
| Lexical.ChanBodyCharacters | src/server/parser.rs:156 | every character of a body is a chanstring character or a colon, and there is at most one colon |
| Lexical.ChannelCharacters | src/server/parser.rs:156 | a channel never holds NUL, LF, CR, space, comma or a character above U+00FF, and holds at most one colon |
| Lexical.ChannelExamples | src/server/parser.rs:156 | `#foo` is a channel; `foo` and `#foo` followed by CR LF are not |
| Lexical.SafeChannelExamples | src/server/parser.rs:156 | `!ABCDE#x` is a channel; `!ABCDEx` is not, because of the word boundary after the id |
| Commands.KindVerb | src/commands.rs:7-31 | each command kind is named by one of the six verbs |
| Commands.KindsMatchVerbs | src/commands.rs:7-31 | every verb names a kind, and two kinds with the same verb are built by the same constructor |
| Parser.ParseLine | src/server/parser.rs:25-43 | the empty line is malformed; a parsed command has a prefix exactly when the line starts with `:`, and that prefix is one word that is a servername or a nick/user/host prefix |
| Parser.PrefixIsFirstWord | src/server/parser.rs:27-36 | on a `:` line the prefix is the first word without its `:`; an invalid first word refuses the line naming it; a valid prefix with nothing after it is malformed; otherwise the rest of the line is parsed as a command with that prefix |
| Parser.FirstWord | src/server/parser.rs:28-34 | the first token is the text up to the first space, and the other tokens are those of the text after it |
| Parser.PrefixAddsOrigin | src/server/parser.rs:27-36 | `:origin rest`, with a valid origin and a non-empty `rest` that does not start with `:`, parses as `rest` does with the origin added as prefix, and fails with the same error when `rest` fails |
| Parser.LineOfTokens | src/server/parser.rs:37-40 | a non-empty line of space-free tokens that does not start with `:` (including one starting with a space, whose first token is empty) has no prefix and is parsed from exactly those tokens |
| Parser.ParsePrefix | src/server/parser.rs:65-74 | the token without its `:` is accepted if and only if it is a servername or a nick/user/host prefix, and is returned unchanged; otherwise the failure names it |
| Parser.LowerChar | src/server/parser.rs:114 | the result is never an upper-case ASCII letter; it is a lower-case ASCII letter exactly when the character is an ASCII letter or U+212A; only upper-case ASCII letters and U+212A are changed (which letter results is pinned down by `Parser.ReadAsVerb`) |
| Parser.Lowered | src/server/parser.rs:114 | `to_lowercase` keeps the length of the word and leaves no upper-case ASCII letter (which words become a given verb is stated by `Parser.ReadAsVerb`) |
| Parser.ReadAsVerb | src/server/parser.rs:114-116 | a word lower-cases to one of the six verbs exactly when, position by position, it has that verb's letter, the same letter in upper-case ASCII, or U+212A where the verb has `k` |
| Parser.LoweredIdempotent | src/server/parser.rs:114 | lower-casing twice is the same as lower-casing once |
| Parser.ParseCommand | src/server/parser.rs:109-125 | no tokens is malformed; a verb read as `join` gives the JOIN grammar's result on the tokens after it; each of the five other verbs gives `Unimplemented` naming it; an unknown verb is unrecognised, carrying the rendered rest; a parsed kind is the one the lower-cased verb names |
| Parser.VerbCaseInsensitive | src/server/parser.rs:114-116 | two verb tokens equal after lower-casing give the same outcome |
| Parser.VerbCaseInsensitiveLine | src/server/parser.rs:114-116 | replacing the verb word of a line by one equal after lower-casing leaves the outcome unchanged |
| Parser.UnrecognisedCarriesRest | src/server/parser.rs:123 | an unknown verb is refused as unrecognised, and its payload splits back into the unread tokens, in order |
| Parser.ParseChannels | src/server/parser.rs:135-139 | the list is accepted if and only if every name is a channel, and then comes back unchanged; otherwise the error names the first invalid name |
| Parser.FirstBadChannel | src/server/parser.rs:135-139 | the channel list is refused naming exactly its first invalid name |
| Parser.JoinZero | src/server/parser.rs:128-134 | a first parameter `0` gives the channel list `["0"]` without keys, whatever follows |
| Parser.JoinWithoutParams | src/server/parser.rs:140 | JOIN without parameters is refused as unrecognised with an empty payload |
| Parser.JoinParams | src/server/parser.rs:127-151 | for a first parameter other than `0`, JOIN succeeds if and only if every comma piece is a channel and there are at most two parameters. The channels and the optional keys are the comma pieces of the parameters, which they join back to. An invalid piece refuses the line naming the first invalid one. A third parameter makes it malformed |
| Parser.JoinLine | src/server/parser.rs:109-117 | a line whose first word is read as `join` is parsed by the JOIN grammar from the words after it, however many there are, with no prefix |
| Parser.ParseJoin | src/server/parser.rs:127-151 | a successful JOIN parse is a `Join` |
| Parser.ChannelsParam | src/server/parser.rs:135-139 | the comma-join of a non-empty list of valid channels is one word, not `0`, and parses back to the list |
| Parser.JoinLineRoundTrip | src/server/parser.rs:127-151 | a JOIN verb in any case, comma-joined valid channels and optional comma-joined keys, written as one line, parse back to exactly those lists |
| Parser.JoinLineFourthWord | src/server/parser.rs:147-150 | a JOIN line with valid channels and a fourth word is malformed with an empty payload |
| Parser.FourWordJoin | src/server/parser.rs:147-148 | four words whose second is a valid channel list and not `0` parse as malformed |
| Parser.JoinLineBadChannel | src/server/parser.rs:135-139 | a two-word JOIN line `verb channels` with an invalid channel is refused naming the first invalid one (lines with more words follow from Parser.JoinLine and Parser.JoinParams) |
| Errors.NumericCode | src/errors.rs:98-145 | every code lies between 401 and 502, so it fits the `i16` returned |
| Errors.Ordinal | src/errors.rs:5-94 | each variant has a position below the variant count, 44 |
| Errors.OrdinalNamesVariant | src/errors.rs:5-94 | the position is k exactly for the k-th declared variant, so equal positions mean the same variant |
| Errors.CodeFromTable | src/errors.rs:100-143 | the code of an error is the table entry at its variant's position |
| Errors.CodeIgnoresData | src/errors.rs:100-143 | errors of the same variant have the same code, whatever data they carry |
| Errors.TableIncreasing | src/errors.rs:100-143 | the code table increases strictly |
| Errors.CodesFollowDeclarationOrder | src/errors.rs:100-143 | a variant declared earlier has a smaller code |
| Errors.CodeInjective | src/errors.rs:100-143 | two errors share a code if and only if they are of the same variant |
| Errors.KnownCodes | src/errors.rs:100-137 | NoSuchNick is 401, NicknameInUse 433, NotRegistered 451, NeedMoreParams 461, AlreadyRegistered 462, BadChannelKey 475 |
| ParserExamples.JoinTwoChannelsWithKeys | src/server/tests.rs:5-15 | `JOIN #foo,#bar fubar,foobar` joins two channels with two keys |
| ParserExamples.JoinZeroLine | src/server/tests.rs:17-27 | `JOIN 0` gives the channel list `["0"]` without keys |
| ParserExamples.JoinAloneLine | src/server/tests.rs:30-35 | `JOIN` alone is refused, as unrecognised |
| ParserExamples.JoinTooManyLine | src/server/tests.rs:37-42 | `JOIN #foo,#bar fubar,foobar foooobar` is refused as malformed |
| ParserExamples.JoinOneChannelLine | src/server/parser.rs:127-151 | `JOIN #foo` joins one channel without keys |
| ParserExamples.JoinMissingSigilLine | src/server/parser.rs:135-139 | `JOIN foo,#bar` is refused naming `foo` |
| ParserExamples.TerminatorStaysInChannel | src/server/parser.rs:37-40 | an unstripped CR LF stays in the last channel and refuses the line |
| ParserExamples.MixedCaseVerb | src/server/parser.rs:114 | `JoIn 0`, `join 0` and `JOIN 0` parse alike |
| ParserExamples.NickIsUnimplemented | src/server/parser.rs:118 | `NICK nvx` reaches the unimplemented `nick` arm |
| ParserExamples.LeadingSpaceLine | src/server/parser.rs:37-40 | ` JOIN` has the empty word as verb, so it is unrecognised with payload `JOIN ` |
| ParserExamples.UnknownVerbLine | src/server/parser.rs:123 | `PART #foo bye` is unrecognised with payload `#foo bye ` |
| ParserExamples.OriginThenJoin | src/server/parser.rs:27-36 | any `nick!user@host` origin before `JOIN #foo` becomes the command's prefix, without its `:` |
| ParserExamples.PrefixedJoinLine | src/server/parser.rs:27-36 | `:nvx-23!nvx@ecs.vuw.ac.nz JOIN #foo` has that origin as prefix and joins `#foo` |
| ParserExamples.EmptyPrefixLine | src/server/parser.rs:65-74 | a `:` with nothing after it is refused, naming the empty prefix |

## Left out

- Reading lines from the connection, and the rest of the server: `server.rs`
  (client handling, applying commands, quitting), `state.rs`, `lib.rs` and
  `main.rs`. These are I/O and shared state outside the parser, and
  `state.rs` is not part of this model.
- The grammars of `nick`, `user`, `ping`, `privmsg` and `quit`. The code has
  none: those arms are `todo!()` and panic. The model returns
  `Unimplemented(verb)` instead of panicking.
- The failure to compile a pattern (parser.rs:59). The patterns are
  constants, so this branch is not modelled.
- `anyhow` contexts and the `Display` texts of errors. A refusal by a
  validator is modelled as `BadToken` naming the refused text, not as a
  message string.
- The `LazyCell` that builds each pattern. It only affects when the pattern
  is built.
- Parser.LowerChar: does not model all of Unicode lower-casing, only the
  characters that can make a word equal one of the six ASCII verbs.
- Text is a sequence of Unicode scalar values, as Rust's `char`. Byte
  offsets are not modelled; `&prefix[1..]` drops the one-byte `:`, which is
  the same as dropping the first character.
- Errors.NumericCode: returns an unbounded integer, proved to lie in
  401-502, rather than an `i16`.
- Parser.ParseJoin: its own contract only says a success is a `Join`; the
  full behaviour is stated by Parser.JoinParams, Parser.JoinZero and
  Parser.JoinWithoutParams, which Parser.ParseCommand and Parser.JoinLine
  connect to whole lines.
