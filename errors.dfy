/** The numeric error replies: a closed set of 44 protocol errors, each with
    the code of its reply in section 5.2 of RFC 2812. */
module Errors {

  /** The error conditions, in declaration order, with the data each reply
      names. */
  datatype IrcError =
    | NoSuchNick(nickname: string)
    | NoSuchServer(server: string)
    | NoSuchChannel(channel: string)
    | CannotSendToChan(channel: string)
    | TooManyChannels(channel: string)
    | WasNoSuchNick(nickname: string)
    | TooManyTargets(target: string)
    | NoOrigin
    | NoRecipient(command: string)
    | NoTextToSend
    | NoTopLevel(mask: string)
    | WildTopLevel(mask: string)
    | UnknownCommand(command: string)
    | NoMotd
    | NoAdminInfo(server: string)
    | FileError(fileOp: string, file: string)
    | NoNickNameGiven
    | ErroneusNickname(nickname: string)
    | NicknameInUse(nickname: string)
    | NickCollision(nickname: string)
    | UserNotInChannel(nickname: string, channel: string)
    | NotOnChannel(channel: string)
    | UserOnChannel(user: string, channel: string)
    | NoLogin(user: string)
    | SummonDisabled
    | UsersDisabled
    | NotRegistered
    | NeedMoreParams(command: string)
    | AlreadyRegistered
    | NoPermForHost
    | PasswdMismatch
    | YoureBannedCreep
    | KeySet(channel: string)
    | ChannelIsFull(channel: string)
    | UnknownMode(modeChar: char)
    | InviteOnlyChan(channel: string)
    | BannedFromChan(channel: string)
    | BadChannelKey(channel: string)
    | NoPrivileges
    | ChanOPrivsNeeded(channel: string)
    | CantKillServer
    | NoOperHost
    | UModeUnkownFlag
    | UsersDontMatch

  /** `numeric_code`: the reply code of an error. It looks only at the
      variant, never at the data it carries, and every code fits the `i16`
      the source returns. */
  function NumericCode(e: IrcError): (code: int)
    ensures 401 <= code <= 502
  {
    match e
    case NoSuchNick(_) => 401
    case NoSuchServer(_) => 402
    case NoSuchChannel(_) => 403
    case CannotSendToChan(_) => 404
    case TooManyChannels(_) => 405
    case WasNoSuchNick(_) => 406
    case TooManyTargets(_) => 407
    case NoOrigin => 409
    case NoRecipient(_) => 411
    case NoTextToSend => 412
    case NoTopLevel(_) => 413
    case WildTopLevel(_) => 414
    case UnknownCommand(_) => 421
    case NoMotd => 422
    case NoAdminInfo(_) => 423
    case FileError(_, _) => 424
    case NoNickNameGiven => 431
    case ErroneusNickname(_) => 432
    case NicknameInUse(_) => 433
    case NickCollision(_) => 436
    case UserNotInChannel(_, _) => 441
    case NotOnChannel(_) => 442
    case UserOnChannel(_, _) => 443
    case NoLogin(_) => 444
    case SummonDisabled => 445
    case UsersDisabled => 446
    case NotRegistered => 451
    case NeedMoreParams(_) => 461
    case AlreadyRegistered => 462
    case NoPermForHost => 463
    case PasswdMismatch => 464
    case YoureBannedCreep => 465
    case KeySet(_) => 467
    case ChannelIsFull(_) => 471
    case UnknownMode(_) => 472
    case InviteOnlyChan(_) => 473
    case BannedFromChan(_) => 474
    case BadChannelKey(_) => 475
    case NoPrivileges => 481
    case ChanOPrivsNeeded(_) => 482
    case CantKillServer => 483
    case NoOperHost => 491
    case UModeUnkownFlag => 501
    case UsersDontMatch => 502
  }

  /** The position of an error's variant in the declaration, from 0. */
  function Ordinal(e: IrcError): (i: nat)
    ensures i < VariantCount
  {
    match e
    case NoSuchNick(_) => 0
    case NoSuchServer(_) => 1
    case NoSuchChannel(_) => 2
    case CannotSendToChan(_) => 3
    case TooManyChannels(_) => 4
    case WasNoSuchNick(_) => 5
    case TooManyTargets(_) => 6
    case NoOrigin => 7
    case NoRecipient(_) => 8
    case NoTextToSend => 9
    case NoTopLevel(_) => 10
    case WildTopLevel(_) => 11
    case UnknownCommand(_) => 12
    case NoMotd => 13
    case NoAdminInfo(_) => 14
    case FileError(_, _) => 15
    case NoNickNameGiven => 16
    case ErroneusNickname(_) => 17
    case NicknameInUse(_) => 18
    case NickCollision(_) => 19
    case UserNotInChannel(_, _) => 20
    case NotOnChannel(_) => 21
    case UserOnChannel(_, _) => 22
    case NoLogin(_) => 23
    case SummonDisabled => 24
    case UsersDisabled => 25
    case NotRegistered => 26
    case NeedMoreParams(_) => 27
    case AlreadyRegistered => 28
    case NoPermForHost => 29
    case PasswdMismatch => 30
    case YoureBannedCreep => 31
    case KeySet(_) => 32
    case ChannelIsFull(_) => 33
    case UnknownMode(_) => 34
    case InviteOnlyChan(_) => 35
    case BannedFromChan(_) => 36
    case BadChannelKey(_) => 37
    case NoPrivileges => 38
    case ChanOPrivsNeeded(_) => 39
    case CantKillServer => 40
    case NoOperHost => 41
    case UModeUnkownFlag => 42
    case UsersDontMatch => 43
  }

  /** The position tells the variants apart: it is k exactly for the k-th
      declared variant, so equal positions mean the same variant. */
  lemma OrdinalNamesVariant(e: IrcError)
    ensures Ordinal(e) == 0 <==> e.NoSuchNick?
    ensures Ordinal(e) == 1 <==> e.NoSuchServer?
    ensures Ordinal(e) == 2 <==> e.NoSuchChannel?
    ensures Ordinal(e) == 3 <==> e.CannotSendToChan?
    ensures Ordinal(e) == 4 <==> e.TooManyChannels?
    ensures Ordinal(e) == 5 <==> e.WasNoSuchNick?
    ensures Ordinal(e) == 6 <==> e.TooManyTargets?
    ensures Ordinal(e) == 7 <==> e.NoOrigin?
    ensures Ordinal(e) == 8 <==> e.NoRecipient?
    ensures Ordinal(e) == 9 <==> e.NoTextToSend?
    ensures Ordinal(e) == 10 <==> e.NoTopLevel?
    ensures Ordinal(e) == 11 <==> e.WildTopLevel?
    ensures Ordinal(e) == 12 <==> e.UnknownCommand?
    ensures Ordinal(e) == 13 <==> e.NoMotd?
    ensures Ordinal(e) == 14 <==> e.NoAdminInfo?
    ensures Ordinal(e) == 15 <==> e.FileError?
    ensures Ordinal(e) == 16 <==> e.NoNickNameGiven?
    ensures Ordinal(e) == 17 <==> e.ErroneusNickname?
    ensures Ordinal(e) == 18 <==> e.NicknameInUse?
    ensures Ordinal(e) == 19 <==> e.NickCollision?
    ensures Ordinal(e) == 20 <==> e.UserNotInChannel?
    ensures Ordinal(e) == 21 <==> e.NotOnChannel?
    ensures Ordinal(e) == 22 <==> e.UserOnChannel?
    ensures Ordinal(e) == 23 <==> e.NoLogin?
    ensures Ordinal(e) == 24 <==> e.SummonDisabled?
    ensures Ordinal(e) == 25 <==> e.UsersDisabled?
    ensures Ordinal(e) == 26 <==> e.NotRegistered?
    ensures Ordinal(e) == 27 <==> e.NeedMoreParams?
    ensures Ordinal(e) == 28 <==> e.AlreadyRegistered?
    ensures Ordinal(e) == 29 <==> e.NoPermForHost?
    ensures Ordinal(e) == 30 <==> e.PasswdMismatch?
    ensures Ordinal(e) == 31 <==> e.YoureBannedCreep?
    ensures Ordinal(e) == 32 <==> e.KeySet?
    ensures Ordinal(e) == 33 <==> e.ChannelIsFull?
    ensures Ordinal(e) == 34 <==> e.UnknownMode?
    ensures Ordinal(e) == 35 <==> e.InviteOnlyChan?
    ensures Ordinal(e) == 36 <==> e.BannedFromChan?
    ensures Ordinal(e) == 37 <==> e.BadChannelKey?
    ensures Ordinal(e) == 38 <==> e.NoPrivileges?
    ensures Ordinal(e) == 39 <==> e.ChanOPrivsNeeded?
    ensures Ordinal(e) == 40 <==> e.CantKillServer?
    ensures Ordinal(e) == 41 <==> e.NoOperHost?
    ensures Ordinal(e) == 42 <==> e.UModeUnkownFlag?
    ensures Ordinal(e) == 43 <==> e.UsersDontMatch?
  {
  }

  const VariantCount := 44

  /** The codes of section 5.2 of RFC 2812 that the variants stand for, in
      declaration order. */
  function CodeAt(i: nat): int
    requires i < VariantCount
  {
    if i == 0 then 401
    else if i == 1 then 402
    else if i == 2 then 403
    else if i == 3 then 404
    else if i == 4 then 405
    else if i == 5 then 406
    else if i == 6 then 407
    else if i == 7 then 409
    else if i == 8 then 411
    else if i == 9 then 412
    else if i == 10 then 413
    else if i == 11 then 414
    else if i == 12 then 421
    else if i == 13 then 422
    else if i == 14 then 423
    else if i == 15 then 424
    else if i == 16 then 431
    else if i == 17 then 432
    else if i == 18 then 433
    else if i == 19 then 436
    else if i == 20 then 441
    else if i == 21 then 442
    else if i == 22 then 443
    else if i == 23 then 444
    else if i == 24 then 445
    else if i == 25 then 446
    else if i == 26 then 451
    else if i == 27 then 461
    else if i == 28 then 462
    else if i == 29 then 463
    else if i == 30 then 464
    else if i == 31 then 465
    else if i == 32 then 467
    else if i == 33 then 471
    else if i == 34 then 472
    else if i == 35 then 473
    else if i == 36 then 474
    else if i == 37 then 475
    else if i == 38 then 481
    else if i == 39 then 482
    else if i == 40 then 483
    else if i == 41 then 491
    else if i == 42 then 501
    else 502
  }

  /** The code of an error is the table entry at its variant's position. */
  lemma CodeFromTable(e: IrcError)
    ensures NumericCode(e) == CodeAt(Ordinal(e))
  {
    if Ordinal(e) < 11 {
      CodeFromTableA(e);
    } else if Ordinal(e) < 22 {
      CodeFromTableB(e);
    } else if Ordinal(e) < 33 {
      CodeFromTableC(e);
    } else {
      CodeFromTableD(e);
    }
  }

  // The table lookup, checked a quarter of the variants at a time.
  lemma CodeFromTableA(e: IrcError)
    requires Ordinal(e) < 11
    ensures NumericCode(e) == CodeAt(Ordinal(e))
  {
  }

  lemma CodeFromTableB(e: IrcError)
    requires 11 <= Ordinal(e) < 22
    ensures NumericCode(e) == CodeAt(Ordinal(e))
  {
  }

  lemma CodeFromTableC(e: IrcError)
    requires 22 <= Ordinal(e) < 33
    ensures NumericCode(e) == CodeAt(Ordinal(e))
  {
  }

  lemma CodeFromTableD(e: IrcError)
    requires 33 <= Ordinal(e)
    ensures NumericCode(e) == CodeAt(Ordinal(e))
  {
  }

  /** The code depends on the variant only, never on the data it carries. */
  lemma CodeIgnoresData(a: IrcError, b: IrcError)
    requires Ordinal(a) == Ordinal(b)
    ensures NumericCode(a) == NumericCode(b)
  {
    CodeFromTable(a);
    CodeFromTable(b);
  }

  /** Neighbouring table entries increase. */
  lemma TableStep(i: nat)
    requires i + 1 < VariantCount
    ensures CodeAt(i) < CodeAt(i + 1)
  {
  }

  /** The table increases strictly. */
  lemma {:induction false} TableIncreasing(i: nat, j: nat)
    requires i < j < VariantCount
    ensures CodeAt(i) < CodeAt(j)
    decreases j - i
  {
    TableStep(i);
    if i + 1 < j {
      TableIncreasing(i + 1, j);
    }
  }

  /** Codes increase strictly in the order the variants are declared. */
  lemma CodesFollowDeclarationOrder(a: IrcError, b: IrcError)
    requires Ordinal(a) < Ordinal(b)
    ensures NumericCode(a) < NumericCode(b)
  {
    CodeFromTable(a);
    CodeFromTable(b);
    TableIncreasing(Ordinal(a), Ordinal(b));
  }

  /** Two errors share a code exactly when they are of the same variant. */
  lemma CodeInjective(a: IrcError, b: IrcError)
    ensures NumericCode(a) == NumericCode(b) <==> Ordinal(a) == Ordinal(b)
  {
    CodeFromTable(a);
    CodeFromTable(b);
    if Ordinal(a) < Ordinal(b) {
      CodesFollowDeclarationOrder(a, b);
    } else if Ordinal(b) < Ordinal(a) {
      CodesFollowDeclarationOrder(b, a);
    }
  }

  /** The codes the server relies on for registration, nicknames and keys. */
  lemma KnownCodes(nickname: string, command: string, channel: string)
    ensures NumericCode(NoSuchNick(nickname)) == 401
    ensures NumericCode(NicknameInUse(nickname)) == 433
    ensures NumericCode(NotRegistered) == 451
    ensures NumericCode(NeedMoreParams(command)) == 461
    ensures NumericCode(AlreadyRegistered) == 462
    ensures NumericCode(BadChannelKey(channel)) == 475
  {
  }
}
