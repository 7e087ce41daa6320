/**
 * The `/set` command: the validators for the four per-chat options and the
 * update-or-insert that stores a validated value
 * (`mensabot/bot/command/config.py`, and the older copy in `mensabot/bot.py`).
 */
module Config {
  import opened Common
  import opened Chats
  import Parse
  import Mensa
  import Templates

  // ---------------------------------------------------------------------------
  // Validators

  /** The message `list.index` raises for a missing value (Python quotes it with its `repr`). */
  function NotInList(x: string): string
  {
    "'" + x + "' is not in list"
  }

  /**
   * `check_price_category`: the position in `PRICES_CATEGORIES`. A value not
   * in the list makes `list.index` itself raise, so the function's own
   * "Unknown price category" error is never reached.
   */
  function CheckPriceCategory(x: string): (r: Result<nat>)
    ensures r.Ok? <==> x in Mensa.PricesCategories
    ensures r.Ok? ==> r.value < |Mensa.PricesCategories| && Mensa.PricesCategories[r.value] == x
    ensures r.Err? ==> r.error == ValueError(NotInList(x))
  {
    match IndexOf(Mensa.PricesCategories, x)
    case Ok(i) => Ok(i)
    case Err(_) => Err(ValueError(NotInList(x)))
  }

  /** `check_locale`: a known language is returned as it is; again `list.index` raises for any other. */
  function CheckLocale(x: string): (r: Result<string>)
    ensures r.Ok? <==> x in Parse.Lang
    ensures r.Ok? ==> r.value == x
    ensures r.Err? ==> r.error == ValueError(NotInList(x))
  {
    match IndexOf(Parse.Lang, x)
    case Ok(_) => Ok(x)
    case Err(_) => Err(ValueError(NotInList(x)))
  }

  /** What `datetime.strptime(text, format).time()` gives: seconds since midnight, or the reason it failed. */
  datatype Strptime = Parsed(seconds: int) | Mismatch(reason: string)

  const LongTimeFormat: string := "%H:%M:%S"
  const ShortTimeFormat: string := "%H:%M"

  function CouldNotParseTime(x: string, reason: string): string
  {
    "Could not parse time '" + x + "', try e.g. '11:15'. (reason was " + reason + ")"
  }

  /**
   * `check_notification_time`: "%H:%M:%S" is tried first, then "%H:%M"; when
   * neither fits, the error quotes the input and the second format's reason.
   */
  function CheckNotificationTime(x: string, strptime: (string, string) -> Strptime): (r: Result<int>)
    ensures strptime(x, LongTimeFormat).Parsed? ==> r == Ok(strptime(x, LongTimeFormat).seconds)
    ensures strptime(x, LongTimeFormat).Mismatch? && strptime(x, ShortTimeFormat).Parsed? ==>
      r == Ok(strptime(x, ShortTimeFormat).seconds)
    ensures r.Err? <==> strptime(x, LongTimeFormat).Mismatch? && strptime(x, ShortTimeFormat).Mismatch?
    ensures r.Err? ==> r.error == ValueError(CouldNotParseTime(x, strptime(x, ShortTimeFormat).reason))
  {
    match strptime(x, LongTimeFormat)
    case Parsed(t) => Ok(t)
    case Mismatch(_) =>
      match strptime(x, ShortTimeFormat)
      case Parsed(t) => Ok(t)
      case Mismatch(reason) => Err(ValueError(CouldNotParseTime(x, reason)))
  }

  // ---------------------------------------------------------------------------
  // Options

  /** A validated option value, tagged with the column it goes to. */
  datatype Setting =
    | TemplateSetting(dir: string)
    | PriceSetting(index: nat)
    | LocaleSetting(locale: string)
    | TimeSetting(seconds: int)

  /** `CONFIG_OPTIONS`, in the order the error message lists them. */
  const Options: seq<string> := ["template", "price_category", "locale", "notification_time"]

  /**
   * `CONFIG_OPTIONS[option](value)`: an unknown option is a `KeyError`; a
   * known one runs its validator, whose `ValueError` passes through.
   * `found` tells which template files exist, `strptime` reads times.
   */
  function Validate(option: string, value: string, found: string -> bool, strptime: (string, string) -> Strptime)
    : (r: Result<Setting>)
    ensures option !in Options <==> r == Err(KeyError(option))
    ensures r.Err? ==> r.error.KeyError? || r.error.ValueError?
    ensures option == "template" && r.Ok? ==> r.value == TemplateSetting(value)
    ensures option == "price_category" ==> (r.Ok? <==> value in Mensa.PricesCategories)
    ensures option == "price_category" && r.Ok? ==>
      r.value.PriceSetting? && r.value.index < |Mensa.PricesCategories| && Mensa.PricesCategories[r.value.index] == value
    ensures option == "locale" ==> (r.Ok? <==> value in Parse.Lang)
    ensures option == "locale" && r.Ok? ==> r.value == LocaleSetting(value)
    ensures option == "template" ==>
      (r.Ok? <==> found(value + "/menu.md") && found(value + "/open.md") && found(value + "/diff.md"))
    ensures option == "notification_time" ==>
      (r.Ok? <==> strptime(value, LongTimeFormat).Parsed? || strptime(value, ShortTimeFormat).Parsed?)
    ensures option == "notification_time" && r.Ok? ==>
      r.value == TimeSetting(if strptime(value, LongTimeFormat).Parsed? then strptime(value, LongTimeFormat).seconds
                             else strptime(value, ShortTimeFormat).seconds)
  {
    if option == "template" then
      match Templates.CheckLegalTemplate(Some(value), found)
      case Err(e) => Err(e)
      case Ok(d) => Ok(TemplateSetting(value))
    else if option == "price_category" then
      match CheckPriceCategory(value)
      case Err(e) => Err(e)
      case Ok(i) => Ok(PriceSetting(i))
    else if option == "locale" then
      match CheckLocale(value)
      case Err(e) => Err(e)
      case Ok(l) => Ok(LocaleSetting(l))
    else if option == "notification_time" then
      match CheckNotificationTime(value, strptime)
      case Err(e) => Err(e)
      case Ok(t) => Ok(TimeSetting(t))
    else Err(KeyError(option))
  }

  /** `values(**{option: value})` on a row: that one column changes. */
  function Apply(row: ChatRow, s: Setting): (r: ChatRow)
    ensures r.id == row.id && r.notifyChange == row.notifyChange && r.updateMenu == row.updateMenu
    ensures r.template == (if s.TemplateSetting? then Some(s.dir) else row.template)
    ensures r.priceCategory == (if s.PriceSetting? then s.index else row.priceCategory)
    ensures r.locale == (if s.LocaleSetting? then Some(s.locale) else row.locale)
    ensures r.pushTime == (if s.TimeSetting? then Some(s.seconds) else row.pushTime)
  {
    match s
    case TemplateSetting(d) => row.(template := Some(d))
    case PriceSetting(i) => row.(priceCategory := i)
    case LocaleSetting(l) => row.(locale := Some(l))
    case TimeSetting(t) => row.(pushTime := Some(t))
  }

  /** Setting the same value twice is setting it once; settings of different columns commute. */
  lemma ApplyIdempotent(row: ChatRow, s: Setting, t: Setting)
    ensures Apply(Apply(row, s), s) == Apply(row, s)
    ensures s.TemplateSetting? != t.TemplateSetting? && s.PriceSetting? != t.PriceSetting? &&
            s.LocaleSetting? != t.LocaleSetting? && s.TimeSetting? != t.TimeSetting? ==>
      Apply(Apply(row, s), t) == Apply(Apply(row, t), s)
  {
  }

  // ---------------------------------------------------------------------------
  // The command

  /**
   * The update-or-insert: the row of `id` is updated, and when that touched
   * no row a new row with the columns' defaults and the new value is
   * inserted. Either way the chat's row afterwards carries the value.
   */
  method Upsert(table: ChatTable, id: int, s: Setting)
    modifies table
    ensures id in old(table.rows) ==> table.rows == old(table.rows)[id := Apply(old(table.rows)[id], s)]
    ensures id !in old(table.rows) ==> table.rows == old(table.rows)[id := Apply(NewChat(id), s)]
  {
    var rowcount := table.Update(id, row => Apply(row, s));
    if rowcount != 1 {
      var _ := table.Insert(Apply(NewChat(id), s));
    }
  }

  const EnterOption: string := "'. Enter a config option and a new value."
  const TryOptions: string := "' is not a valid config option. Try template, price_category, locale, notification_time."

  function Updated(option: string, value: string): string
  {
    "Updated " + option + " to '" + value + "'."
  }

  /**
   * `set_config`: anything but exactly two words is refused; an unknown
   * option or a value its validator rejects is reported; nothing is written
   * in these cases. Otherwise the value is stored and confirmed.
   */
  method SetConfig(table: ChatTable, id: int, args: seq<string>, found: string -> bool,
                   strptime: (string, string) -> Strptime) returns (reply: string)
    modifies table
    ensures |args| != 2 ==> reply == "Could not parse args '" + Join(args, " ") + EnterOption
    ensures |args| == 2 && Validate(args[0], args[1], found, strptime).Err? ==> table.rows == old(table.rows)
    ensures |args| == 2 && args[0] !in Options ==> reply == "'" + args[0] + TryOptions
    ensures |args| == 2 && Validate(args[0], args[1], found, strptime).Err? &&
            Validate(args[0], args[1], found, strptime).error.ValueError? ==>
      reply == Validate(args[0], args[1], found, strptime).error.message
    ensures |args| != 2 ==> table.rows == old(table.rows)
    ensures |args| == 2 && Validate(args[0], args[1], found, strptime).Ok? ==>
      var s := Validate(args[0], args[1], found, strptime).value;
      reply == Updated(args[0], args[1]) &&
      table.rows == old(table.rows)[id := Apply(if id in old(table.rows) then old(table.rows)[id] else NewChat(id), s)]
  {
    if |args| != 2 {
      return "Could not parse args '" + Join(args, " ") + EnterOption;
    }
    match Validate(args[0], args[1], found, strptime) {
      case Err(e) =>
        if e.KeyError? {
          return "'" + args[0] + TryOptions;
        }
        return e.message;
      case Ok(s) =>
        Upsert(table, id, s);
        return Updated(args[0], args[1]);
    }
  }

  /** The `/set` command's value read back from the table: the row holds what was validated. */
  lemma SetStoresValidated(row: ChatRow, option: string, value: string, found: string -> bool,
                           strptime: (string, string) -> Strptime)
    requires Validate(option, value, found, strptime).Ok?
    ensures option == "locale" ==> Apply(row, Validate(option, value, found, strptime).value).locale == Some(value)
    ensures option == "template" ==> Apply(row, Validate(option, value, found, strptime).value).template == Some(value)
    ensures option == "price_category" ==>
      Mensa.PricesCategories[Apply(row, Validate(option, value, found, strptime).value).priceCategory] == value
    ensures option == "notification_time" ==>
      Apply(row, Validate(option, value, found, strptime).value).pushTime == Some(CheckNotificationTime(value, strptime).value)
  {
  }

  // ---------------------------------------------------------------------------
  // The older copy in the bot's main file

  /** `'%s' % args` for a list of strings: Python's list display (quotes are not escaped). */
  function ListRepr(args: seq<string>): string
  {
    "[" + Join(seq(|args|, i requires 0 <= i < |args| => "'" + args[i] + "'"), ", ") + "]"
  }

  /**
   * The older `set_config`: the words are the message text with every
   * "/set" removed, stripped and split on spaces; a wrong word count is
   * reported with the list's display; only `ValueError` is caught, so an
   * unknown option escapes as a `KeyError` and nothing is written.
   */
  method BotSetConfig(table: ChatTable, id: int, text: string, found: string -> bool,
                      strptime: (string, string) -> Strptime) returns (r: Result<string>)
    modifies table
    ensures var args := Split(Strip(RemoveAll(text, "/set")), ' ');
      (|args| != 2 ==> r == Ok("Could not parse args '" + ListRepr(args) + EnterOption)) &&
      (|args| == 2 && args[0] !in Options ==> r == Err(KeyError(args[0]))) &&
      (r.Err? || (|args| == 2 && Validate(args[0], args[1], found, strptime).Err?) ==> table.rows == old(table.rows)) &&
      (|args| == 2 && Validate(args[0], args[1], found, strptime).Ok? ==>
        r == Ok(Updated(args[0], args[1])) &&
        table.rows == old(table.rows)[id := Apply(if id in old(table.rows) then old(table.rows)[id] else NewChat(id),
                                                  Validate(args[0], args[1], found, strptime).value)])
  {
    var args := Split(Strip(RemoveAll(text, "/set")), ' ');
    if |args| != 2 {
      return Ok("Could not parse args '" + ListRepr(args) + EnterOption);
    }
    match Validate(args[0], args[1], found, strptime) {
      case Err(e) =>
        if e.KeyError? {
          return Err(e);
        }
        return Ok(e.message);
      case Ok(s) =>
        Upsert(table, id, s);
        return Ok(Updated(args[0], args[1]));
    }
  }
}
