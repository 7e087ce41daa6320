/**
 * What both bots do when the stored menu changes (`mensabot/bot/diff_listener.py`,
 * `stwno-bot/stwno_bot/diff_listener.py`): the changes of the menu day the
 * bot has sent menus for are put in menu order, every chat that asked for
 * change notices gets one notice, and every registered menu message whose
 * chat wants live menus is edited.
 *
 * The two versions differ in one point: the older bot reads `notify_change`
 * on the record of a chat that has none and fails with `AttributeError`,
 * the newer one skips such a message. `skipMissing` selects the version.
 * Rendering and the Telegram calls are left out: a notice or an edit is
 * represented by a `Delivery`.
 */
module DiffListener {
  import opened Common
  import opened Dishes
  import opened Sorting
  import opened Chats
  import opened Sched
  import opened MensaMenu
  import Menus
  import DayMenu
  import MensaCommand
  import BotUtil

  // ---------------------------------------------------------------------------
  // The changes of the day

  /** A change that is about some dish; every change the diff engine builds is. */
  predicate HasDish(c: Change)
  {
    c.from.Some? || c.to.Some?
  }

  /** `Change.dish()`: the new dish, or the old one when the dish was removed. */
  function DishOf(c: Change): (d: Dish)
    requires HasDish(c)
    ensures c.to.Some? ==> d == c.to.value
    ensures c.to.None? ==> d == c.from.value
  {
    if c.to.Some? then c.to.value else c.from.value
  }

  /** The changes about the given day; when no day is known, none. */
  function OfDay(diff: seq<Change>, day: Option<int>): (r: seq<Change>)
    requires forall c :: c in diff ==> HasDish(c)
    ensures forall c :: c in r <==> c in diff && day == Some(DishOf(c).datum)
    ensures multiset(r) <= multiset(diff)
  {
    var keep := (c: Change) => HasDish(c) && day == Some(DishOf(c).datum);
    FilterSubMultiset(diff, keep);
    Filter(diff, keep)
  }

  /** The dishes of the changes, in order. */
  function DishesOf(diff: seq<Change>): (r: seq<Dish>)
    requires forall c :: c in diff ==> HasDish(c)
    ensures |r| == |diff|
    ensures forall i :: 0 <= i < |diff| ==> r[i] == DishOf(diff[i])
  {
    seq(|diff|, i requires 0 <= i < |diff| => DishOf(diff[i]))
  }

  /**
   * The menu order of changes: by the category rank of their dish, then by
   * category code; changes without a dish, which the diff engine never
   * builds, come last.
   */
  predicate Le(a: Change, b: Change)
  {
    !HasDish(b) || (HasDish(a) && DayMenu.ByRank(DishOf(a), DishOf(b)))
  }

  lemma LePreorder()
    ensures TotalPreorder(Le)
  {
    DayMenu.ByRankPreorder();
  }

  /**
   * `sorted(diff, key=...)`: the key of a change whose category is empty or
   * does not start with a `MENU_TYPES` letter raises, and the first such
   * change in list order decides the exception. Otherwise the changes in
   * menu order, stably.
   */
  function InMenuOrder(diff: seq<Change>): (r: Result<seq<Change>>)
    requires forall c :: c in diff ==> HasDish(c)
    ensures r.Err? <==> exists c :: c in diff && DayMenu.Rank(DishOf(c)).Err?
    ensures r.Ok? ==> SortedBy(r.value, Le) && multiset(r.value) == multiset(diff)
    ensures r.Ok? ==> forall x :: TiesOf(r.value, x, Le) == TiesOf(diff, x, Le)
  {
    var dishes := DishesOf(diff);
    match DayMenu.FirstUnranked(dishes)
    case Some(i) => Err(DayMenu.Rank(dishes[i]).error)
    case None =>
      assert forall c :: c in diff ==> DayMenu.Rank(DishOf(c)).Ok? by {
        forall c | c in diff ensures DayMenu.Rank(DishOf(c)).Ok? {
          var i :| 0 <= i < |diff| && diff[i] == c;
          assert dishes[i] in dishes;
        }
      }
      LePreorder();
      var s := Sort(diff, Le);
      assert forall c :: c in s ==> c in multiset(diff);
      forall x ensures TiesOf(s, x, Le) == TiesOf(diff, x, Le) {
        SortStable(diff, x, Le);
      }
      Ok(s)
  }

  // ---------------------------------------------------------------------------
  // The fan-out

  /** A notice of the changes to a chat, or an edit of a registered menu message. */
  datatype Delivery = SendUpdate(chat: ChatRow) | EditMenu(msg: Message, chat: ChatRow)

  /** What the loop over the registered messages did, and the exception that ended it, if any. */
  datatype Fanned = Fanned(sent: seq<Delivery>, failed: Option<Error>)

  /**
   * The loop over the registered messages: per message, a notice when the
   * chat wants them and has not had one in this run, then an edit when the
   * chat wants live menus. A message without a chat record is skipped, or
   * ends the loop with `AttributeError`.
   */
  function FanOut(msgs: seq<Message>, rows: map<int, ChatRow>, dedup: set<int>, skipMissing: bool): (r: Fanned)
    ensures r.failed.Some? ==> !skipMissing && r.failed.value == AttributeError
    decreases |msgs|
  {
    if msgs == [] then Fanned([], None)
    else if msgs[0].chatId !in rows then
      if skipMissing then FanOut(msgs[1..], rows, dedup, skipMissing) else Fanned([], Some(AttributeError))
    else
      var (here, dedup') := Visit(msgs[0], rows[msgs[0].chatId], dedup);
      var rest := FanOut(msgs[1..], rows, dedup', skipMissing);
      Fanned(here + rest.sent, rest.failed)
  }

  /**
   * One registered message whose chat has a record: a notice when the chat
   * wants one and has not had one, which marks the chat as notified; then an
   * edit when the chat wants live menus.
   */
  function Visit(m: Message, chat: ChatRow, dedup: set<int>): (r: (seq<Delivery>, set<int>))
    ensures SendUpdate(chat) in r.0 <==> chat.notifyChange && chat.id !in dedup
    ensures EditMenu(m, chat) in r.0 <==> chat.updateMenu
    ensures r.1 == if chat.notifyChange && chat.id !in dedup then dedup + {chat.id} else dedup
  {
    var notice := chat.notifyChange && chat.id !in dedup;
    ((if notice then [SendUpdate(chat)] else []) + (if chat.updateMenu then [EditMenu(m, chat)] else []),
     if notice then dedup + {chat.id} else dedup)
  }

  /** The chats that receive a notice, in order. */
  function Notified(ds: seq<Delivery>): (r: seq<int>)
    ensures forall x :: x in r <==> exists i :: 0 <= i < |ds| && ds[i].SendUpdate? && ds[i].chat.id == x
  {
    if ds == [] then []
    else
      assert forall i :: 1 <= i < |ds| ==> ds[1..][i - 1] == ds[i];
      (if ds[0].SendUpdate? then [ds[0].chat.id] else []) + Notified(ds[1..])
  }

  lemma NotifiedConcat(a: seq<Delivery>, b: seq<Delivery>)
    ensures Notified(a + b) == Notified(a) + Notified(b)
  {
    if a != [] {
      assert (a + b)[1..] == a[1..] + b;
      NotifiedConcat(a[1..], b);
    } else {
      assert a + b == b;
    }
  }

  /** No chat id twice. */
  predicate Distinct(s: seq<int>)
  {
    forall i, j :: 0 <= i < j < |s| ==> s[i] != s[j]
  }

  /** The edits, in order. */
  function Edits(ds: seq<Delivery>): (r: seq<Delivery>)
    ensures forall d :: d in r <==> d in ds && d.EditMenu?
  {
    Filter(ds, (d: Delivery) => d.EditMenu?)
  }

  /**
   * At most one notice per chat: the chats notified are all different, and
   * none of them had been notified before the loop reached them.
   */
  lemma {:induction false} OneNoticePerChat(msgs: seq<Message>, rows: map<int, ChatRow>, dedup: set<int>, skipMissing: bool)
    ensures var n := Notified(FanOut(msgs, rows, dedup, skipMissing).sent);
      Distinct(n) && forall x :: x in n ==> x !in dedup
    decreases |msgs|
  {
    if msgs != [] {
      if msgs[0].chatId !in rows {
        if skipMissing {
          OneNoticePerChat(msgs[1..], rows, dedup, skipMissing);
          assert FanOut(msgs, rows, dedup, skipMissing) == FanOut(msgs[1..], rows, dedup, skipMissing);
          var m := Notified(FanOut(msgs[1..], rows, dedup, skipMissing).sent);
          assert Notified(FanOut(msgs, rows, dedup, skipMissing).sent) == m;
          assert Distinct(m);
        } else {
          assert FanOut(msgs, rows, dedup, skipMissing).sent == [];
        }
      } else {
        var chat := rows[msgs[0].chatId];
        var notice := chat.notifyChange && chat.id !in dedup;
        var (here, dedup') := Visit(msgs[0], chat, dedup);
        var rest := FanOut(msgs[1..], rows, dedup', skipMissing);
        OneNoticePerChat(msgs[1..], rows, dedup', skipMissing);
        NotifiedConcat(here, rest.sent);
        assert Notified(here) == if notice then [chat.id] else [];
        var m := Notified(rest.sent);
        if notice {
          DistinctCons(chat.id, m);
        }
      }
    }
  }

  lemma DistinctCons(x: int, m: seq<int>)
    requires Distinct(m) && x !in m
    ensures Distinct([x] + m)
  {
    var n := [x] + m;
    forall i, j | 0 <= i < j < |n| ensures n[i] != n[j] {
      assert n[j] == m[j - 1];
      if i > 0 {
        assert n[i] == m[i - 1];
      }
    }
  }

  /** The chat behind a registered message wants notices. */
  predicate WantsNotice(rows: map<int, ChatRow>, m: Message)
  {
    m.chatId in rows && rows[m.chatId].notifyChange
  }

  /**
   * With the records skipped that are missing and a table keyed by chat id,
   * a chat gets a notice exactly when it has not had one yet and one of the
   * registered messages is in it and it wants notices.
   */
  lemma {:induction false} NoticeIffWanted(msgs: seq<Message>, rows: map<int, ChatRow>, dedup: set<int>, x: int)
    requires KeyedById(rows)
    ensures x in Notified(FanOut(msgs, rows, dedup, true).sent) <==>
      x !in dedup && exists i :: 0 <= i < |msgs| && msgs[i].chatId == x && WantsNotice(rows, msgs[i])
    decreases |msgs|
  {
    if msgs != [] {
      WantedCons(msgs, rows, x);
      if msgs[0].chatId !in rows {
        NoticeIffWanted(msgs[1..], rows, dedup, x);
      } else {
        var chat := rows[msgs[0].chatId];
        var (here, dedup') := Visit(msgs[0], chat, dedup);
        NoticeIffWanted(msgs[1..], rows, dedup', x);
        FanOutStep(msgs, rows, dedup, true);
        NotifiedConcat(here, FanOut(msgs[1..], rows, dedup', true).sent);
        NotifiedOfVisit(msgs[0], chat, dedup);
      }
    }
  }

  /** A registered message that wants a notice for `x` is the first one or one of the rest. */
  lemma WantedCons(msgs: seq<Message>, rows: map<int, ChatRow>, x: int)
    requires msgs != []
    ensures (exists i :: 0 <= i < |msgs| && msgs[i].chatId == x && WantsNotice(rows, msgs[i])) <==>
      (msgs[0].chatId == x && WantsNotice(rows, msgs[0])) ||
      exists i :: 0 <= i < |msgs[1..]| && msgs[1..][i].chatId == x && WantsNotice(rows, msgs[1..][i])
  {
    if exists i :: 0 <= i < |msgs| && msgs[i].chatId == x && WantsNotice(rows, msgs[i]) {
      var i :| 0 <= i < |msgs| && msgs[i].chatId == x && WantsNotice(rows, msgs[i]);
      if i > 0 {
        assert msgs[1..][i - 1] == msgs[i];
      }
    }
    if exists i :: 0 <= i < |msgs[1..]| && msgs[1..][i].chatId == x && WantsNotice(rows, msgs[1..][i]) {
      var i :| 0 <= i < |msgs[1..]| && msgs[1..][i].chatId == x && WantsNotice(rows, msgs[1..][i]);
      assert msgs[i + 1] == msgs[1..][i];
    }
  }

  /** The notice of one visit. */
  lemma NotifiedOfVisit(m: Message, chat: ChatRow, dedup: set<int>)
    ensures Notified(Visit(m, chat, dedup).0) == if chat.notifyChange && chat.id !in dedup then [chat.id] else []
  {
    var notice := chat.notifyChange && chat.id !in dedup;
    var n: seq<Delivery> := if notice then [SendUpdate(chat)] else [];
    var e: seq<Delivery> := if chat.updateMenu then [EditMenu(m, chat)] else [];
    assert Visit(m, chat, dedup).0 == n + e;
    NotifiedConcat(n, e);
  }

  /** The edits the source promises, with no regard to notices: one per message whose chat wants live menus. */
  function EditsFor(msgs: seq<Message>, rows: map<int, ChatRow>): (r: seq<Delivery>)
    ensures forall d :: d in r ==> d.EditMenu? && d.msg in msgs
  {
    if msgs == [] then []
    else
      var m := msgs[0];
      (if m.chatId in rows && rows[m.chatId].updateMenu then [EditMenu(m, rows[m.chatId])] else []) + EditsFor(msgs[1..], rows)
  }

  /** The edits do not depend on which chats were notified. */
  lemma {:induction false} EditsIndependentOfNotices(msgs: seq<Message>, rows: map<int, ChatRow>, dedup: set<int>)
    ensures Edits(FanOut(msgs, rows, dedup, true).sent) == EditsFor(msgs, rows)
    decreases |msgs|
  {
    if msgs != [] {
      if msgs[0].chatId !in rows {
        EditsIndependentOfNotices(msgs[1..], rows, dedup);
      } else {
        var chat := rows[msgs[0].chatId];
        var (here, dedup') := Visit(msgs[0], chat, dedup);
        var rest := FanOut(msgs[1..], rows, dedup', true).sent;
        EditsIndependentOfNotices(msgs[1..], rows, dedup');
        FanOutStep(msgs, rows, dedup, true);
        EditsConcat(here, rest);
        EditsOfVisit(msgs[0], chat, dedup);
      }
    }
  }

  /** A message with a chat record: its visit, then the rest of the loop. */
  lemma FanOutStep(msgs: seq<Message>, rows: map<int, ChatRow>, dedup: set<int>, skipMissing: bool)
    requires msgs != [] && msgs[0].chatId in rows
    ensures var v := Visit(msgs[0], rows[msgs[0].chatId], dedup);
      FanOut(msgs, rows, dedup, skipMissing).sent == v.0 + FanOut(msgs[1..], rows, v.1, skipMissing).sent
  {
  }

  lemma EditsConcat(a: seq<Delivery>, b: seq<Delivery>)
    ensures Edits(a + b) == Edits(a) + Edits(b)
  {
    FilterConcat(a, b, (d: Delivery) => d.EditMenu?);
  }

  /** The edit of one visit, whether or not it sent a notice. */
  lemma EditsOfVisit(m: Message, chat: ChatRow, dedup: set<int>)
    ensures Edits(Visit(m, chat, dedup).0) == if chat.updateMenu then [EditMenu(m, chat)] else []
  {
    var notice := chat.notifyChange && chat.id !in dedup;
    var n: seq<Delivery> := if notice then [SendUpdate(chat)] else [];
    var e: seq<Delivery> := if chat.updateMenu then [EditMenu(m, chat)] else [];
    assert Visit(m, chat, dedup).0 == n + e;
    EditsConcat(n, e);
  }

  /**
   * The older bot fails exactly when a registered message's chat has no
   * record, and otherwise does what the newer one does.
   */
  lemma {:induction false} FailsIffChatMissing(msgs: seq<Message>, rows: map<int, ChatRow>, dedup: set<int>)
    ensures FanOut(msgs, rows, dedup, false).failed.Some? <==> exists i :: 0 <= i < |msgs| && msgs[i].chatId !in rows
    ensures FanOut(msgs, rows, dedup, false).failed.None? ==>
      FanOut(msgs, rows, dedup, false) == FanOut(msgs, rows, dedup, true)
    decreases |msgs|
  {
    if msgs != [] {
      assert forall i :: 0 <= i < |msgs[1..]| ==> msgs[1..][i] == msgs[i + 1];
      if msgs[0].chatId in rows {
        var chat := rows[msgs[0].chatId];
        var notice := chat.notifyChange && chat.id !in dedup;
        FailsIffChatMissing(msgs[1..], rows, if notice then dedup + {chat.id} else dedup);
      }
    }
  }

  // ---------------------------------------------------------------------------
  // notify_diff

  /**
   * `notify_diff`: the older engine's diff of the two weeks; its changes of
   * `day` (the default menu day, or the day the registry was last reset
   * for) in menu order; then the loop over the registered messages. An
   * exception of the diff or of the sort ends the call before any message.
   */
  method NotifyDiff(reg: MensaCommand.Registry, chats: ChatTable, before: seq<Dish>, after: seq<Dish>,
                    close: CloseMatches, day: Option<int>, skipMissing: bool)
    returns (r: Result<(seq<Change>, Fanned)>)
    ensures var g := Menus.WeekDiff(before, after, SortedCompare(close));
      g.Err? ==> r == Err(g.error)
    ensures var g := Menus.WeekDiff(before, after, SortedCompare(close));
      g.Ok? ==> forall c :: c in g.value ==> HasDish(c)
    ensures var g := Menus.WeekDiff(before, after, SortedCompare(close));
      g.Ok? ==> r == (match InMenuOrder(OfDay(g.value, day))
        case Err(e) => Err(e)
        case Ok(ordered) => Ok((ordered, FanOut(reg.notifications, chats.rows, {}, skipMissing))))
  {
    var diff := GenerateDiff(before, after, close);
    if diff.Err? {
      return Err(diff.error);
    }
    DiffChanges(before, after, close);
    assert forall c :: c in diff.value ==> HasDish(c);
    var ordered := InMenuOrder(OfDay(diff.value, day));
    if ordered.Err? {
      return Err(ordered.error);
    }
    var fanned := Deliver(reg.notifications, chats, skipMissing);
    return Ok((ordered.value, fanned));
  }

  /** One turn of the loop over a message whose chat has a record. */
  lemma FanOutVisit(msgs: seq<Message>, i: nat, rows: map<int, ChatRow>, dedup: set<int>, skipMissing: bool,
                    sent: seq<Delivery>)
    requires i < |msgs| && msgs[i].chatId in rows
    ensures var v := Visit(msgs[i], rows[msgs[i].chatId], dedup);
      var rest := FanOut(msgs[i + 1..], rows, v.1, skipMissing);
      var f := FanOut(msgs[i..], rows, dedup, skipMissing);
      sent + f.sent == (sent + v.0) + rest.sent && f.failed == rest.failed
  {
    var v := Visit(msgs[i], rows[msgs[i].chatId], dedup);
    var rest := FanOut(msgs[i + 1..], rows, v.1, skipMissing);
    assert msgs[i..][0] == msgs[i] && msgs[i..][1..] == msgs[i + 1..];
    assert FanOut(msgs[i..], rows, dedup, skipMissing) == Fanned(v.0 + rest.sent, rest.failed);
    assert sent + (v.0 + rest.sent) == (sent + v.0) + rest.sent;
  }

  /** The loop of `notify_diff` over the registered messages, with its `dedup` set. */
  method Deliver(msgs: seq<Message>, chats: ChatTable, skipMissing: bool) returns (r: Fanned)
    ensures r == FanOut(msgs, chats.rows, {}, skipMissing)
  {
    var dedup: set<int> := {};
    var sent: seq<Delivery> := [];
    ghost var all := FanOut(msgs, chats.rows, {}, skipMissing);
    assert msgs[0..] == msgs;
    for i := 0 to |msgs|
      invariant var rest := FanOut(msgs[i..], chats.rows, dedup, skipMissing);
        all == Fanned(sent + rest.sent, rest.failed)
    {
      assert msgs[i..][0] == msgs[i] && msgs[i..][1..] == msgs[i + 1..];
      var record := BotUtil.ChatRecord(chats, BotUtil.OfMessage(msgs[i]));
      if record.Err? || record.value.None? {
        if !skipMissing {
          return Fanned(sent, Some(AttributeError));
        }
      } else {
        var chat := record.value.value;
        FanOutVisit(msgs, i, chats.rows, dedup, skipMissing, sent);
        sent, dedup := VisitMessage(msgs[i], chat, sent, dedup);
      }
    }
    assert msgs[|msgs|..] == [];
    assert sent + [] == sent;
    return Fanned(sent, None);
  }

  /** The body of the loop for a message with a chat record. */
  method VisitMessage(m: Message, chat: ChatRow, sent: seq<Delivery>, dedup: set<int>)
    returns (sent': seq<Delivery>, dedup': set<int>)
    ensures sent' == sent + Visit(m, chat, dedup).0 && dedup' == Visit(m, chat, dedup).1
  {
    sent', dedup' := sent, dedup;
    if chat.notifyChange && chat.id !in dedup {
      dedup' := dedup + {chat.id};
      sent' := sent' + [SendUpdate(chat)];
    }
    if chat.updateMenu {
      sent' := sent' + [EditMenu(m, chat)];
    }
  }

  // ---------------------------------------------------------------------------
  // install_listener

  /**
   * The two listeners `install_listener` adds, as the store calls them one
   * after the other for a changed week: each queues its work to run at once
   * with priority 150, the notices first, then the commit of the stored file.
   */
  method OnChange(sched: Scheduler, now: int, week: int, before: seq<Dish>, after: seq<Dish>)
    modifies sched
    ensures sched.queue == old(sched.queue) + [Job(now, 150, Action.NotifyDiff(week, before, after)), Job(now, 150, Action.CommitDiff(week, before, after))]
  {
    var _ := sched.Enter(now, 0, 150, Action.NotifyDiff(week, before, after));
    var _ := sched.Enter(now, 0, 150, Action.CommitDiff(week, before, after));
  }
}
