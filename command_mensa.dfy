/**
 * The `/mensa` command and the sending of menus (mensabot/bot/command/mensa.py,
 * with the same date rule in mensabot/bot.py): the registry of today's menu
 * messages, which the diff listener edits when the menu changes, the default
 * date of a menu request, and the guard on menu updates.
 *
 * Rendering a template and talking to Telegram are left out: a send is
 * represented by the message Telegram hands back, a rendered text by its
 * string.
 */
module MensaCommand {
  import opened Common
  import opened Chats
  import opened Opening
  import Mensa

  /** `mensa_notifications`, and the day the scheduler last reset it for. */
  class Registry {
    var notifications: seq<Message>
    /** `mensa_notification_date`; no day before the first reset. */
    var date: Option<int>

    constructor()
      ensures notifications == [] && date == None
    {
      notifications := [];
      date := None;
    }
  }

  /** `PRICES_CATEGORIES[chat.price_category if chat else 0]`, with Python's negative indices. */
  function PriceCategoryOf(chat: Option<ChatRow>): (r: Result<string>)
    ensures chat.None? ==> r == Ok(Mensa.PricesCategories[0])
    ensures r.Ok? <==> chat.None? || -3 <= chat.value.priceCategory < 3
    ensures r.Ok? ==> r.value in Mensa.PricesCategories
    ensures r.Err? ==> r.error == IndexError
  {
    PyIndex(Mensa.PricesCategories, if chat.Some? then chat.value.priceCategory else 0)
  }

  /**
   * `send_menu_message`: the menu is sent unless the chat's price category
   * is out of range, and the message Telegram returns is added to the
   * registry exactly when the menu is today's. The registry only grows.
   */
  method SendMenuMessage(reg: Registry, dt: int, today: int, chat: Option<ChatRow>, sent: Message)
    returns (r: Result<Message>)
    modifies reg
    ensures r.Ok? <==> PriceCategoryOf(chat).Ok?
    ensures r.Ok? ==> r.value == sent
    ensures reg.notifications == old(reg.notifications) + (if r.Ok? && DayOf(dt) == today then [sent] else [])
    ensures reg.date == old(reg.date)
  {
    var price := PriceCategoryOf(chat);
    if price.Err? {
      return Err(price.error);
    }
    if DayOf(dt) == today {
      reg.notifications := reg.notifications + [sent];
    }
    return Ok(sent);
  }

  /** The moment whose next menu day is shown by default: from 16:00 on, the same time tomorrow. */
  function MenuMoment(now: int): (r: int)
    ensures TimeOf(now) < 16 * 3600 ==> r == now
    ensures TimeOf(now) >= 16 * 3600 ==> DayOf(r) == DayOf(now) + 1 && TimeOf(r) == TimeOf(now)
  {
    DayOfShift(now, 1);
    if TimeOf(now) / 3600 > 15 then now + DaySeconds else now
  }

  const OnlyDefaultLocation: string := "Currently, only default location is supported"
  const TryHint: string := ". Try 'today', 'tomorrow', 'Friday' or a date."

  /** What `/mensa` answers: the menu of a day, or a hint. */
  datatype Reply = ShowMenu(date: int) | Hint(text: string)

  /**
   * The `/mensa` command given the parsed argument (a location and a date,
   * or the parser's error). A parsed date is shown as it is; without one,
   * the next menu day from `MenuMoment(now)` (`get_next_menu_date`, a
   * parameter). A location is refused with a hint and no menu, and so is
   * an argument the parser rejects with a `ValueError`; other errors
   * escape.
   */
  function Respond(parsed: Result<(Option<string>, Option<int>)>, now: int, nextMenuDate: int -> int): (r: Result<Reply>)
    ensures parsed.Ok? && parsed.value.0.None? && parsed.value.1.Some? ==> r == Ok(ShowMenu(parsed.value.1.value))
    ensures parsed.Ok? && parsed.value.0.None? && parsed.value.1.None? ==> r == Ok(ShowMenu(nextMenuDate(MenuMoment(now))))
    ensures parsed.Ok? && parsed.value.0.Some? ==>
      r == Ok(Hint(OnlyDefaultLocation + TryHint))
    ensures parsed.Err? && parsed.error.ValueError? ==>
      r == Ok(Hint(parsed.error.message + TryHint))
    ensures r.Err? <==> parsed.Err? && !parsed.error.ValueError?
    ensures r.Ok? && r.value.ShowMenu? ==> parsed.Ok? && parsed.value.0.None?
  {
    var dt: Result<int> :=
      match parsed
      case Err(e) => Err(e)
      case Ok((loc, date)) =>
        if loc.Some? then Err(ValueError(OnlyDefaultLocation))
        else if date.Some? then Ok(date.value)
        else Ok(nextMenuDate(MenuMoment(now)));
    match dt
    case Ok(d) => Ok(ShowMenu(d))
    case Err(ValueError(m)) => Ok(Hint(m + TryHint))
    case Err(e) => Err(e)
  }

  /** `send_menu_update`: the rendered update is sent exactly when it holds something other than white space. */
  function MenuUpdate(text: string): (r: Option<string>)
    ensures r.Some? <==> exists i :: 0 <= i < |text| && !IsSpace(text[i])
    ensures r.Some? ==> r.value == text
  {
    StripEmpty(text);
    if Strip(text) != "" then Some(text) else None
  }
}
