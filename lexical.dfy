/** The lexical validators of the parser. Each regular expression of the source
    becomes a predicate over characters (code points, not bytes), and
    `regex_match` becomes `RegexMatch`: accept the text and hand it back
    unchanged, or reject it naming the text. */
module Lexical {
  import opened Wrappers
  import opened Tokens

  // ---------------------------------------------------------------------
  // Character classes

  predicate IsAsciiLetter(c: char) { 'A' <= c <= 'Z' || 'a' <= c <= 'z' }

  predicate IsAsciiDigit(c: char) { '0' <= c <= '9' }

  predicate IsAsciiAlnum(c: char) { IsAsciiLetter(c) || IsAsciiDigit(c) }

  /** `[0-9A-F]`: upper-case hexadecimal digit. */
  predicate IsUpperHex(c: char) { IsAsciiDigit(c) || 'A' <= c <= 'F' }

  /** `[A-Z0-9]`: a character of a `!` channel's five-character id. */
  predicate IsIdChar(c: char) { 'A' <= c <= 'Z' || IsAsciiDigit(c) }

  /** RFC 2812 "special": `[`, `\`, `]`, `^`, `_`, backquote (0x5B-0x60) and `{`, `|`, `}` (0x7B-0x7D). */
  predicate IsSpecial(c: char) { 0x5B <= c as int <= 0x60 || 0x7B <= c as int <= 0x7D }

  /** The chanstring class shared by the channel and user patterns: 0x01-0x09,
      0x0B-0x0C, 0x0E-0x1F, 0x21-0x2B, 0x2D-0x39, 0x3B-0xFF. It leaves out NUL,
      LF, CR, space, comma, colon and everything above U+00FF; BELL (0x07) is in. */
  predicate IsChanChar(c: char) {
    var n := c as int;
    (0x01 <= n <= 0x09) || (0x0B <= n <= 0x0C) || (0x0E <= n <= 0x1F)
    || (0x21 <= n <= 0x2B) || (0x2D <= n <= 0x39) || (0x3B <= n <= 0xFF)
  }

  /** A Unicode word character (`\w`), restricted to U+0000-U+00FF, the only
      range where the channel pattern can test it: ASCII letters and digits,
      `_`, and the Latin-1 letters U+00AA, U+00B5, U+00BA, U+00C0-U+00D6,
      U+00D8-U+00F6, U+00F8-U+00FF. */
  predicate IsWordChar(c: char) {
    var n := c as int;
    IsAsciiAlnum(c) || c == '_' || n == 0xAA || n == 0xB5 || n == 0xBA
    || (0xC0 <= n <= 0xD6) || (0xD8 <= n <= 0xF6) || (0xF8 <= n <= 0xFF)
  }

  // ---------------------------------------------------------------------
  // servername (parser.rs:94-105)

  /** The servername pattern read left to right: at a label start an ASCII
      letter or digit is required; inside a label letters, digits and `-` are
      accepted, and `.` opens the next label; the text may end only inside a
      label. (`(?:\-|[A-Za-z0-9])*[A-Za-z0-9]*` accepts exactly
      `(?:\-|[A-Za-z0-9])*`.) */
  predicate HostnameFrom(s: string, atLabelStart: bool)
    ensures HostnameFrom(s, atLabelStart) ==>
              forall i | 0 <= i < |s| :: IsAsciiAlnum(s[i]) || s[i] == '-' || s[i] == '.'
    ensures HostnameFrom(s, atLabelStart) && atLabelStart ==> |s| >= 1 && IsAsciiAlnum(s[0])
    // every dot opens a label that starts with a letter or digit
    ensures HostnameFrom(s, atLabelStart) ==>
              forall i | 0 <= i < |s| && s[i] == '.' :: i + 1 < |s| && IsAsciiAlnum(s[i + 1])
    decreases |s|
  {
    if |s| == 0 then !atLabelStart
    else if atLabelStart then IsAsciiAlnum(s[0]) && HostnameFrom(s[1..], false)
    else if s[0] == '.' then HostnameFrom(s[1..], true)
    else (IsAsciiAlnum(s[0]) || s[0] == '-') && HostnameFrom(s[1..], false)
  }

  /** The servername pattern: letters, digits, `-` and `.`, starting with a
      letter or digit, every `.` followed by a letter or digit. */
  predicate IsServername(s: string)
    ensures IsServername(s) ==>
              |s| >= 1 && IsAsciiAlnum(s[0]) && s[|s| - 1] != '.'
              && (forall i | 0 <= i < |s| :: IsAsciiAlnum(s[i]) || s[i] == '-' || s[i] == '.')
              && (forall i | 0 <= i < |s| && s[i] == '.' :: i + 1 < |s| && IsAsciiAlnum(s[i + 1]))
  {
    HostnameFrom(s, true)
  }

  /** A label: a letter or digit, then letters, digits or hyphens. */
  predicate IsShortname(l: string) {
    |l| >= 1 && IsAsciiAlnum(l[0]) && forall i | 1 <= i < |l| :: IsAsciiAlnum(l[i]) || l[i] == '-'
  }

  predicate AllLabelChars(l: string) {
    forall i | 0 <= i < |l| :: IsAsciiAlnum(l[i]) || l[i] == '-'
  }

  predicate AllShortnames(labels: seq<string>) {
    forall k | 0 <= k < |labels| :: IsShortname(labels[k])
  }

  /** The servername pattern accepts exactly the texts whose dot-separated
      labels are all shortnames (so no empty label, no leading hyphen; a
      trailing hyphen is fine). The second conclusion is the same fact for a
      scan that starts inside a label. */
  lemma {:induction false} ServernameLabels(s: string)
    ensures IsServername(s) <==> AllShortnames(Split(s, '.'))
    ensures HostnameFrom(s, false) <==>
              AllLabelChars(Split(s, '.')[0]) && AllShortnames(Split(s, '.')[1..])
    decreases |s|
  {
    if |s| > 0 {
      ServernameLabels(s[1..]);
      var rest := Split(s[1..], '.');
      var parts := Split(s, '.');
      if s[0] == '.' {
        assert parts == [""] + rest;
        assert parts[1..] == rest;
        assert !IsShortname(parts[0]);
      } else {
        assert parts == [[s[0]] + rest[0]] + rest[1..];
        assert parts[1..] == rest[1..];
        var head := parts[0];
        assert head[1..] == rest[0];
        assert AllLabelChars(head) <==> (IsAsciiAlnum(s[0]) || s[0] == '-') && AllLabelChars(rest[0]) by {
          if AllLabelChars(head) {
            forall i | 0 <= i < |rest[0]| ensures IsAsciiAlnum(rest[0][i]) || rest[0][i] == '-' {
              assert rest[0][i] == head[i + 1];
            }
          }
        }
        assert IsShortname(head) <==> IsAsciiAlnum(s[0]) && AllLabelChars(rest[0]) by {
          if IsShortname(head) {
            forall i | 0 <= i < |rest[0]| ensures IsAsciiAlnum(rest[0][i]) || rest[0][i] == '-' {
              assert rest[0][i] == head[i + 1];
            }
          }
        }
        assert AllShortnames(parts) <==> IsShortname(head) && AllShortnames(rest[1..]) by {
          if IsShortname(head) && AllShortnames(rest[1..]) {
            forall k | 0 <= k < |parts| ensures IsShortname(parts[k]) {
              if k > 0 { assert parts[k] == rest[1..][k - 1]; }
            }
          }
        }
      }
    } else {
      assert Split(s, '.') == [""];
    }
  }

  // ---------------------------------------------------------------------
  // nickname [ [ "!" user ] "@" host ] (parser.rs:76-92)

  /** `[A-Za-z\x5B-\x60\x7B-\x7D][\-A-Za-z0-9\x5B-\x60\x7B-\x7D]{0,8}` */
  predicate IsNickname(s: string) {
    1 <= |s| <= 9
    && (IsAsciiLetter(s[0]) || IsSpecial(s[0]))
    && forall i | 1 <= i < |s| :: IsAsciiAlnum(s[i]) || IsSpecial(s[i]) || s[i] == '-'
  }

  /** The user part after `!`: one or more chanstring characters (so it may
      itself hold `@` and `!`). */
  predicate IsChanString(s: string) {
    |s| >= 1 && forall i | 0 <= i < |s| :: IsChanChar(s[i])
  }

  /** The hostname alternative of the prefix pattern. Its
      `[A-Za-z0-9][\-A-Za-z0-9]*[A-Za-z0-9]*(?:[\.A-Za-z0-9][\-A-Za-z0-9]*[A-Za-z0-9]*)*`
      accepts exactly a letter or digit followed by any letters, digits, `-`
      and `.` (empty labels and trailing dots included). */
  predicate IsLooseHostname(s: string) {
    |s| >= 1 && IsAsciiAlnum(s[0])
    && forall i | 1 <= i < |s| :: IsAsciiAlnum(s[i]) || s[i] == '-' || s[i] == '.'
  }

  predicate IsDigits(s: string, lo: nat, hi: nat) {
    lo <= |s| <= hi && forall i | 0 <= i < |s| :: IsAsciiDigit(s[i])
  }

  /** `(?:[0-9]{1,3}\.){3}[0-9]`: three dotted groups of one to three digits,
      then exactly one digit. */
  predicate IsIp4Form(s: string) {
    var p := Split(s, '.');
    |p| == 4 && IsDigits(p[0], 1, 3) && IsDigits(p[1], 1, 3) && IsDigits(p[2], 1, 3) && IsDigits(p[3], 1, 1)
  }

  /** `[0-9A-F]+[:0-9A-F]+` or `0:0:0:0:0:0FFFF:` followed by the IPv4 form. */
  predicate IsIp6Form(s: string) {
    (|s| >= 2 && IsUpperHex(s[0]) && forall i | 1 <= i < |s| :: s[i] == ':' || IsUpperHex(s[i]))
    || (|s| >= 16 && s[..16] == "0:0:0:0:0:0FFFF:" && IsIp4Form(s[16..]))
  }

  /** The host alternatives: `@` followed by a hostname, or a host address
      with no `@` before it (the `|` in the pattern binds the `@` to the
      hostname alternative only). */
  predicate IsHostPart(h: string) {
    (|h| >= 1 && h[0] == '@' && IsLooseHostname(h[1..])) || IsIp4Form(h) || IsIp6Form(h)
  }

  /** What may follow the nickname: nothing, or an optional `!user` and then a host part. */
  predicate IsPrefixTail(t: string) {
    |t| == 0
    || IsHostPart(t)
    || (|t| >= 1 && t[0] == '!' && exists j | 2 <= j <= |t| :: IsChanString(t[1..j]) && IsHostPart(t[j..]))
  }

  /** The whole nick/user/host pattern: some split of the text into a nickname
      and a tail that the rest of the pattern accepts. */
  predicate IsNickPrefix(s: string)
    ensures IsNickPrefix(s) ==> |s| >= 1 && (IsAsciiLetter(s[0]) || IsSpecial(s[0]))
  {
    exists i | 1 <= i <= |s| && i <= 9 :: IsNickname(s[..i]) && IsPrefixTail(s[i..])
  }

  /** The RFC 2812 origin `nick!user@host` is accepted. */
  lemma NickUserHostAccepted(nick: string, user: string, host: string)
    requires IsNickname(nick) && IsChanString(user) && IsLooseHostname(host)
    ensures IsNickPrefix(nick + "!" + user + "@" + host)
  {
    var s := nick + "!" + user + "@" + host;
    var t := s[|nick|..];
    assert s[..|nick|] == nick;
    assert t == "!" + user + "@" + host;
    assert t[1..|user| + 1] == user;
    assert t[|user| + 1..] == "@" + host;
    assert ("@" + host)[1..] == host;
    assert IsHostPart(t[|user| + 1..]);
  }

  /** Such an origin is one word: none of its parts holds a space. */
  lemma NickUserHostOneWord(nick: string, user: string, host: string)
    requires IsNickname(nick) && IsChanString(user) && IsLooseHostname(host)
    ensures ' ' !in nick + "!" + user + "@" + host
  {
    var s := nick + "!" + user + "@" + host;
    var at := |nick| + 1 + |user|;
    forall i | 0 <= i < |s| ensures s[i] != ' ' {
      if i < |nick| {
        assert s[i] == nick[i];
      } else if |nick| < i < at {
        assert s[i] == user[i - |nick| - 1];
      } else if at < i {
        assert s[i] == host[i - at - 1];
      }
    }
  }

  /** A character that never occurs in a prefix: space, NUL, CR or LF. */
  predicate IsBlank(c: char) { c == ' ' || c == '\0' || c == '\r' || c == '\n' }

  lemma Ip4Avoids(h: string, c: char)
    requires IsIp4Form(h) && IsBlank(c)
    ensures c !in h
  {
    var p := Split(h, '.');
    forall k | 0 <= k < |p| ensures c !in p[k] {
      assert forall i | 0 <= i < |p[k]| :: IsAsciiDigit(p[k][i]);
    }
    JoinWithAvoids(p, '.', c);
    JoinSplit(h, '.');
  }

  lemma HostPartAvoids(h: string, c: char)
    requires IsHostPart(h) && IsBlank(c)
    ensures c !in h
  {
    if |h| >= 1 && h[0] == '@' && IsLooseHostname(h[1..]) {
      forall i | 0 <= i < |h| ensures h[i] != c {
        if i > 0 {
          assert h[i] == h[1..][i - 1];
        }
      }
    } else if IsIp4Form(h) {
      Ip4Avoids(h, c);
    } else if |h| >= 16 && h[..16] == "0:0:0:0:0:0FFFF:" && IsIp4Form(h[16..]) {
      Ip4Avoids(h[16..], c);
      assert h == h[..16] + h[16..];
    }
  }

  lemma PrefixTailAvoids(t: string, c: char)
    requires IsPrefixTail(t) && IsBlank(c)
    ensures c !in t
  {
    if |t| > 0 && !IsHostPart(t) {
      var j :| 2 <= j <= |t| && IsChanString(t[1..j]) && IsHostPart(t[j..]);
      HostPartAvoids(t[j..], c);
      forall i | 0 <= i < |t| ensures t[i] != c {
        if 1 <= i < j {
          assert t[i] == t[1..j][i - 1];
        } else if j <= i {
          assert t[i] == t[j..][i - j];
        }
      }
    } else if |t| > 0 {
      HostPartAvoids(t, c);
    }
  }

  /** A nick/user/host prefix holds no space, NUL, CR or LF, so it is always
      one word of a line. */
  lemma NickPrefixAvoids(s: string, c: char)
    requires IsNickPrefix(s) && IsBlank(c)
    ensures c !in s
  {
    var n :| 1 <= n <= |s| && n <= 9 && IsNickname(s[..n]) && IsPrefixTail(s[n..]);
    PrefixTailAvoids(s[n..], c);
    forall i | 0 <= i < |s| ensures s[i] != c {
      if i < n {
        assert s[i] == s[..n][i];
      } else {
        assert s[i] == s[n..][i - n];
      }
    }
  }

  /** A nickname, `!`, a user part and a host address glued to it are accepted. */
  lemma UserThenAddressAccepted(nick: string, user: string, addr: string)
    requires IsNickname(nick) && IsChanString(user) && (IsIp4Form(addr) || IsIp6Form(addr))
    ensures IsNickPrefix(nick + "!" + user + addr)
  {
    var s := nick + "!" + user + addr;
    var t := s[|nick|..];
    assert s[..|nick|] == nick;
    assert t == "!" + user + addr;
    assert t[1..|user| + 1] == user;
    assert t[|user| + 1..] == addr;
    assert IsHostPart(t[|user| + 1..]);
  }

  /** As written, a host address needs no `@`: it may be glued directly to
      the user part, as in `n!u2001:DB8::1`. Since the user class holds `@`
      and digits, an IPv6 address after `@` is accepted this way too: in
      `n!u@2001:DB8::1` the user part is `u@200` and `1:DB8::1` the address. */
  lemma AddressWithoutAtAccepted()
    ensures IsNickPrefix("n" + "!" + "u" + "2001:DB8::1")
    ensures IsNickPrefix("n" + "!" + "u@200" + "1:DB8::1")
  {
    SampleAddressParts();
    UserThenAddressAccepted("n", "u", "2001:DB8::1");
    UserThenAddressAccepted("n", "u@200", "1:DB8::1");
  }

  lemma SampleAddressParts()
    ensures IsNickname("n") && IsChanString("u") && IsChanString("u@200")
    ensures IsIp6Form("2001:DB8::1") && IsIp6Form("1:DB8::1")
  {
  }

  /** An IPv4 address after `@` is accepted, as a hostname. */
  lemma Ip4AfterAtAccepted()
    ensures IsNickPrefix("n@1.2.3.4")
  {
    var s := "n@1.2.3.4";
    var t := s[1..];
    assert s[..1] == "n";
    assert t[1..] == "1.2.3.4" && IsLooseHostname(t[1..]);
    assert IsHostPart(t);
  }

  /** A nickname never holds `@`, so it ends before one. */
  lemma NicknameEndsBeforeAt(s: string, at: nat)
    requires at < |s| && s[at] == '@'
    ensures forall i | at < i <= |s| :: !IsNickname(s[..i])
  {
    forall i | at < i <= |s| ensures !IsNickname(s[..i]) {
      assert s[..i][at] == '@';
    }
  }

  /** As written, a host address after `@` is refused: a one-character
      nickname, `@` and a host holding a `:` (every IPv6 address does) is
      neither a nick/user/host prefix nor a servername. */
  lemma AddressAfterAtRefused(nick: char, host: string)
    requires ':' in host
    ensures !IsNickPrefix([nick] + "@" + host)
    ensures !IsServername([nick] + "@" + host)
  {
    var s := [nick] + "@" + host;
    var t := "@" + host;
    assert s[1..] == t && s[1] == '@';
    NicknameEndsBeforeAt(s, 1);
    assert !IsLooseHostname(t[1..]) by {
      assert t[1..] == host;
    }
    var p := Split(t, '.');
    assert !IsIp4Form(t) by {
      if |p[0]| >= 1 {
        assert p[0][0] == '@';
      }
    }
    assert !IsPrefixTail(t);
    assert !HostnameFrom(t, false);
  }

  // ---------------------------------------------------------------------
  // channel (parser.rs:153-159)

  /** `[chanstring]+(?::[chanstring]+)?`: the text after the channel sigil. */
  predicate IsChanBody(b: string) {
    IsChanString(b)
    || exists k | 1 <= k < |b| - 1 :: b[k] == ':' && IsChanString(b[..k]) && IsChanString(b[k + 1..])
  }

  /** `#`, `+` or `&` followed by a body; or `!`, a five-character
      `[A-Z0-9]` id that is not followed by a word character, then a body. */
  predicate IsChannel(s: string)
    ensures IsChannel(s) ==> |s| >= 2 && (s[0] == '#' || s[0] == '+' || s[0] == '&' || s[0] == '!')
  {
    |s| >= 1
    && (
      ((s[0] == '#' || s[0] == '+' || s[0] == '&') && IsChanBody(s[1..]))
      || (s[0] == '!' && |s| >= 7 && (forall i | 1 <= i <= 5 :: IsIdChar(s[i]))
          && !IsWordChar(s[6]) && IsChanBody(s[6..]))
    )
  }

  /** A body splits at `:` into one or two chanstrings. */
  lemma ChanBodySplits(b: string)
    requires IsChanBody(b)
    ensures |Split(b, ':')| <= 2 && forall k | 0 <= k < |Split(b, ':')| :: IsChanString(Split(b, ':')[k])
  {
    if IsChanString(b) {
      ColonFree(b);
      SplitWithoutSep(b, ':');
    } else {
      var k :| 1 <= k < |b| - 1 && b[k] == ':' && IsChanString(b[..k]) && IsChanString(b[k + 1..]);
      ColonSplit(b, k);
    }
  }

  lemma ColonSplit(b: string, k: nat)
    requires 1 <= k < |b| - 1 && b[k] == ':' && IsChanString(b[..k]) && IsChanString(b[k + 1..])
    ensures Split(b, ':') == [b[..k], b[k + 1..]]
  {
    assert b == b[..k] + [':'] + b[k + 1..];
    ColonPair(b[..k], b[k + 1..]);
  }

  lemma ColonPair(x: string, y: string)
    requires IsChanString(x) && IsChanString(y)
    ensures Split(x + [':'] + y, ':') == [x, y]
  {
    ColonFree(x);
    ColonFree(y);
    SplitAfterHead(x, y, ':');
    SplitWithoutSep(y, ':');
  }

  lemma ColonFree(s: string)
    requires IsChanString(s)
    ensures ':' !in s
  {
    assert forall i | 0 <= i < |s| :: s[i] != ':';
  }

  /** Text that splits at `:` into one or two chanstrings is a body. */
  lemma ChanBodyFromSplit(b: string)
    requires |Split(b, ':')| <= 2 && forall k | 0 <= k < |Split(b, ':')| :: IsChanString(Split(b, ':')[k])
    ensures IsChanBody(b)
  {
    var parts := Split(b, ':');
    JoinSplit(b, ':');
    if |parts| == 2 {
      var k := |parts[0]|;
      assert b == parts[0] + [':'] + parts[1];
      assert b[..k] == parts[0] && b[k + 1..] == parts[1];
    } else {
      assert b == parts[0];
    }
  }

  /** The channel body is exactly one or two colon-separated chanstrings. */
  lemma ChanBodyParts(b: string)
    ensures IsChanBody(b) <==> |Split(b, ':')| <= 2 && forall k | 0 <= k < |Split(b, ':')| :: IsChanString(Split(b, ':')[k])
  {
    if IsChanBody(b) {
      ChanBodySplits(b);
    }
    if |Split(b, ':')| <= 2 && forall k | 0 <= k < |Split(b, ':')| :: IsChanString(Split(b, ':')[k]) {
      ChanBodyFromSplit(b);
    }
  }

  /** Every character of a body is a chanstring character or its one colon. */
  lemma ChanBodyCharacters(b: string)
    requires IsChanBody(b)
    ensures forall i | 0 <= i < |b| :: IsChanChar(b[i]) || b[i] == ':'
    ensures forall i, j | 0 <= i < j < |b| :: !(b[i] == ':' && b[j] == ':')
  {
    if !IsChanString(b) {
      var k :| 1 <= k < |b| - 1 && b[k] == ':' && IsChanString(b[..k]) && IsChanString(b[k + 1..]);
      forall i | 0 <= i < |b| && i != k ensures IsChanChar(b[i]) {
        if i < k {
          assert b[..k][i] == b[i];
        } else {
          assert b[k + 1..][i - k - 1] == b[i];
        }
      }
    }
  }

  /** Characters a channel never holds: NUL, LF, CR, space, comma, anything
      above U+00FF; and at most one colon. So a token that still carries the
      line's CR LF is never a channel. */
  lemma ChannelCharacters(s: string)
    requires IsChannel(s)
    ensures forall i | 0 <= i < |s| ::
              s[i] != '\0' && s[i] != '\n' && s[i] != '\r' && s[i] != ' ' && s[i] != ',' && s[i] as int <= 0xFF
    ensures forall i, j | 0 <= i < j < |s| :: !(s[i] == ':' && s[j] == ':')
  {
    var start := if s[0] == '!' then 6 else 1;
    var b := s[start..];
    ChanBodyCharacters(b);
    forall i | start <= i < |s| ensures IsChanChar(s[i]) || s[i] == ':' {
      assert s[i] == b[i - start];
    }
    forall i, j | start <= i < j < |s| ensures !(s[i] == ':' && s[j] == ':') {
      assert s[i] == b[i - start] && s[j] == b[j - start];
    }
  }

  // ---------------------------------------------------------------------
  // regex_match and the three validators built on it

  /** `regex_match`: the text itself when the pattern accepts it, otherwise a
      failure naming the text. */
  function RegexMatch(haystack: string, accepts: string -> bool): (r: Result<string, string>)
    ensures r.Ok? <==> accepts(haystack)
    ensures r.Ok? ==> r.value == haystack
    ensures r.Err? ==> r.error == haystack
  {
    if accepts(haystack) then Ok(haystack) else Err(haystack)
  }

  /** `parse_servername` */
  function ParseServername(word: string): (r: Result<string, string>)
    ensures r.Ok? <==> AllShortnames(Split(word, '.'))
    ensures r.Ok? ==> r.value == word
  {
    ServernameLabels(word);
    RegexMatch(word, IsServername)
  }

  /** `parse_nickname_etc_for_prefix` */
  function ParseNickPrefix(word: string): (r: Result<string, string>)
    ensures r.Ok? <==> IsNickPrefix(word)
    ensures r.Ok? ==> r.value == word
  {
    RegexMatch(word, IsNickPrefix)
  }

  /** `parse_channel` */
  function ParseChannel(channel: string): (r: Result<string, string>)
    ensures r.Ok? <==> IsChannel(channel)
    ensures r.Ok? ==> r.value == channel && ',' !in channel && ' ' !in channel && '\r' !in channel && '\n' !in channel
    ensures r.Err? ==> r.error == channel
  {
    if IsChannel(channel) then ChannelCharacters(channel); RegexMatch(channel, IsChannel)
    else RegexMatch(channel, IsChannel)
  }

  /** Two shortnames joined by a dot make a servername. */
  lemma TwoLabelServername(a: string, b: string)
    requires IsShortname(a) && IsShortname(b)
    ensures IsServername(a + "." + b)
  {
    assert forall i | 0 <= i < |a| :: a[i] != '.';
    assert forall i | 0 <= i < |b| :: b[i] != '.';
    SplitAfterHead(a, b, '.');
    SplitWithoutSep(b, '.');
    ServernameLabels(a + "." + b);
    assert Split(a + "." + b, '.') == [a, b];
  }

  /** The servername pattern on examples: a trailing hyphen is accepted. */
  lemma ServernameTrailingHyphen()
    ensures IsServername("irc" + "." + "example-")
  {
    assert IsShortname("irc") && IsShortname("example-");
    TwoLabelServername("irc", "example-");
  }

  /** The servername pattern on examples: empty labels are refused. */
  lemma ServernameEmptyLabels()
    ensures !IsServername("a..b") && !IsServername(".a") && !IsServername("a.") && !IsServername("")
  {
    assert "a..b"[1..] == "..b" && "..b"[1..] == ".b";
    assert "a."[1..] == ".";
    assert "."[1..] == "";
  }

  /** The channel pattern on examples: `#foo` is a channel; `foo` and `#foo`
      followed by CR LF are not. */
  lemma ChannelExamples()
    ensures IsChannel("#foo") && !IsChannel("foo") && !IsChannel("#foo\r\n")
  {
    assert "#foo"[1..] == "foo";
    assert IsChanString("foo");
    var body := "#foo\r\n"[1..];
    assert body == "foo\r\n" && !IsChanChar(body[3]);
    assert !IsChanString(body);
    assert forall k | 0 <= k < |body| :: body[k] != ':';
  }

  /** `!ABCDE#x` is a channel; `!ABCDEx` is not, because `x` is a word
      character right after the five-character id. */
  lemma SafeChannelExamples()
    ensures IsChannel("!ABCDE#x") && !IsChannel("!ABCDEx")
  {
    var bang := "!ABCDE#x";
    assert bang[6..] == "#x" && IsChanString("#x");
  }
}
