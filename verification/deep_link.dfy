/**
 The referral deep link: the start parameter `inviter_<id>` that the get-link
 handler puts in the link it hands out, and its parsing by the start handler.
 */
module DeepLink {
  import opened Wrappers
  import opened Decimal
  import opened Text

  const InviterPrefix: string := "inviter_"

  /** The text between the prefix's underscore and the next underscore (or the end). */
  function InviterField(param: string): string
    requires StartsWith(param, InviterPrefix)
  {
    TakeUntil(param[|InviterPrefix|..], '_')
  }

  /** The `param.split("_")[1]` of a prefixed parameter is its inviter field. */
  lemma SecondFieldIsInviterField(param: string)
    requires StartsWith(param, InviterPrefix)
    ensures |Split(param, '_')| >= 2
    ensures Split(param, '_')[1] == InviterField(param)
  {
    var rest := param[|InviterPrefix|..];
    assert param == "inviter" + ['_'] + rest;
    SplitAfterHead("inviter", '_', rest);
    FirstFieldIsTakeUntil(rest, '_');
  }

  /**
   The inviter a start parameter names: `None` when it does not start with
   `inviter_`, and also when `int(param.split("_")[1])` raises.
   */
  function ParseInviter(param: string): (r: Option<int>)
    ensures !StartsWith(param, InviterPrefix) ==> r == None
    ensures StartsWith(param, InviterPrefix) ==> r == ParseInt(InviterField(param))
  {
    if !StartsWith(param, InviterPrefix) then None
    else
      var fields := Split(param, '_');
      SecondFieldIsInviterField(param);
      if |fields| < 2 then None else ParseInt(fields[1])
  }

  /** The start parameter of the link issued to `user`: `inviter_{user_id}`. */
  function StartParam(user: int): string
  {
    InviterPrefix + IntToString(user)
  }

  /** The parameter of an issued link parses back to the user it was issued to. */
  lemma ParseStartParam(user: int)
    ensures ParseInviter(StartParam(user)) == Some(user)
  {
    var param := StartParam(user);
    assert param[..|InviterPrefix|] == InviterPrefix;
    assert param[|InviterPrefix|..] == IntToString(user);
    SplitWithoutSeparator(IntToString(user), '_');
    FirstFieldIsTakeUntil(IntToString(user), '_');
  }

  /**
   A parameter credits nobody exactly when it lacks the prefix or its inviter
   field is not an integer literal (`inviter_abc`, `inviter_`).
   */
  lemma RejectedParams(param: string)
    ensures ParseInviter(param) == None <==>
      !StartsWith(param, InviterPrefix) || !IsIntLiteral(InviterField(param))
  {
  }

  /** Only the field after the first underscore is read; later fields are ignored. */
  lemma TrailingFieldsIgnored(field: string, tail: string)
    requires '_' !in field
    ensures ParseInviter(InviterPrefix + field + "_" + tail) == ParseInt(field)
  {
    var param := InviterPrefix + field + "_" + tail;
    assert param[..|InviterPrefix|] == InviterPrefix;
    assert param[|InviterPrefix|..] == field + ['_'] + tail;
    SplitAfterHead(field, '_', tail);
    FirstFieldIsTakeUntil(field + ['_'] + tail, '_');
  }

  const LinkHost: string := "https://t.me/"

  /** The deep link handed out to `user` for the bot called `botName`. */
  function DeepLinkUrl(botName: string, user: int): (url: string)
    ensures StartsWith(url, LinkHost)
  {
    LinkHost + botName + ("?start=" + StartParam(user))
  }

  /** The link as line 113 builds it: the slash after the host is missing. */
  function DeepLinkUrlAsWritten(botName: string, user: int): string
  {
    "https://t.me" + botName + ("?start=" + StartParam(user))
  }

}
