/**
  The translations of legacy flags and enumerations into the current schema's
  values, applied when a legacy guild and its queue channels are converted
  (src/db/legacy-migration/migrate.ts:161-196, 230, 269).
  Every legacy field arrives as a JavaScript value: `===` compares values
  exactly and a bare flag is read for its truthiness.
 */
module Translate {
  import Wrappers
  import opened Js

  datatype Scope = All | None
  datatype DisplayUpdateType = New | Edit | Replace
  datatype MemberDisplayType = Mention | Plaintext
  datatype TimestampType = Off | Date | Time | DateAndTime | Relative

  /** The fixed rank given to every prioritized member or subject. */
  const PriorityOrder: int := 5

  /** Guild logging scope: `All` for a set `logging_channel_level`, unset otherwise. */
  function LogScopeOf(loggingChannelLevel: Value): (r: Wrappers.Option<Scope>)
    ensures r == Wrappers.Some(All) <==> Truthy(loggingChannelLevel)
    ensures r == Wrappers.None <==> !Truthy(loggingChannelLevel)
  {
    if Truthy(loggingChannelLevel) then Wrappers.Some(All) else Wrappers.None
  }

  /** Queue button visibility: nobody sees buttons when `hide_button` is set, everybody otherwise. */
  function DisplayButtonsOf(hideButton: Value): (r: Scope)
    ensures r == None <==> Truthy(hideButton)
    ensures r == All <==> !Truthy(hideButton)
  {
    if Truthy(hideButton) then None else All
  }

  /** Display update mode from the guild's `msg_mode`: the number 1 edits, 2 replaces, anything else posts anew. */
  function DisplayUpdateTypeOf(msgMode: Value): (r: DisplayUpdateType)
    ensures r == Edit <==> msgMode == Num(1)
    ensures r == Replace <==> msgMode == Num(2)
    ensures r == New <==> msgMode != Num(1) && msgMode != Num(2)
  {
    if msgMode == Num(1) then Edit else if msgMode == Num(2) then Replace else New
  }

  /** Member rendering: plain text when `disable_mentions` is set, mentions otherwise. */
  function MemberDisplayTypeOf(disableMentions: Value): (r: MemberDisplayType)
    ensures r == Plaintext <==> Truthy(disableMentions)
    ensures r == Mention <==> !Truthy(disableMentions)
  {
    if Truthy(disableMentions) then Plaintext else Mention
  }

  /** Notifications are on exactly when `disable_notifications` is not set. */
  function NotificationsToggleOf(disableNotifications: Value): (r: bool)
    ensures r <==> !Truthy(disableNotifications)
  {
    !Truthy(disableNotifications)
  }

  /**
    Timestamp rendering from the guild's `timestamps`: the four recognised
    texts map to their own modes, every other value (absent included) to `Off`.
   */
  function TimestampTypeOf(timestamps: Value): (r: TimestampType)
    ensures r == Date <==> timestamps == Str("date")
    ensures r == Time <==> timestamps == Str("time")
    ensures r == DateAndTime <==> timestamps == Str("date+time")
    ensures r == Relative <==> timestamps == Str("relative")
    ensures r == Off <==> timestamps !in {Str("date"), Str("time"), Str("date+time"), Str("relative")}
  {
    if timestamps == Str("date") then Date
    else if timestamps == Str("time") then Time
    else if timestamps == Str("date+time") then DateAndTime
    else if timestamps == Str("relative") then Relative
    else Off
  }

  /**
    `get(Color, color) ?? default`: the colour enumeration's member named by the
    legacy value, or the table's default colour when there is no such member.
   */
  function ColorOf(colors: map<string, string>, defaultColor: string, color: Value): (r: string)
    ensures ToPropertyKey(color) in colors ==> r == colors[ToPropertyKey(color)]
    ensures ToPropertyKey(color) !in colors ==> r == defaultColor
    ensures r in colors.Values || r == defaultColor
  {
    var key := ToPropertyKey(color);
    if key in colors then colors[key] else defaultColor
  }

  /** A member's rank: the fixed priority order when `is_priority` is set, unset otherwise. */
  function MemberPriorityOf(isPriority: Value): (r: Wrappers.Option<int>)
    ensures r == Wrappers.Some(PriorityOrder) <==> Truthy(isPriority)
    ensures r == Wrappers.None <==> !Truthy(isPriority)
  {
    if Truthy(isPriority) then Wrappers.Some(PriorityOrder) else Wrappers.None
  }

  /**
    What the translations make of CSV cells, which are always text or absent:
    the numeric comparisons of `msg_mode` never hold, so the update mode is
    always `New`, and every non-empty text (including "false" and "0") counts as a set flag.
   */
  lemma CellTranslations(v: Value)
    requires IsCell(v)
    ensures DisplayUpdateTypeOf(v) == New
    ensures DisplayButtonsOf(v) == None <==> v.Str? && v.s != ""
    ensures MemberPriorityOf(v).Some? <==> v.Str? && v.s != ""
  {
  }

  /** The four recognised timestamp texts yield four different modes, none of them `Off`. */
  lemma TimestampTypesDistinct(a: string, b: string)
    requires a in {"date", "time", "date+time", "relative"}
    requires b in {"date", "time", "date+time", "relative"}
    requires a != b
    ensures TimestampTypeOf(Str(a)) != TimestampTypeOf(Str(b))
    ensures TimestampTypeOf(Str(a)) != Off
  {
  }
}
