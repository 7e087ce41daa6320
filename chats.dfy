/**
 * The bot's `chats` table (one row per chat, keyed by the chat id) and the
 * sent Telegram messages the bot keeps track of.
 *
 * The table is a map from chat id to row, so an update by id touches at
 * most one row. `pushTime` is the `notification_time` column of the older
 * schema and the `push_time` column of the newer one, in seconds since
 * midnight.
 */
module Chats {
  import opened Common

  datatype ChatRow = ChatRow(
    id: int,
    priceCategory: int,
    template: Option<string>,
    locale: Option<string>,
    pushTime: Option<int>,
    notifyChange: bool,
    updateMenu: bool)

  /** A row as an insert of only its id creates it: the columns' defaults. */
  function NewChat(id: int): (r: ChatRow)
    ensures r.id == id && r.priceCategory == 0
    ensures r.template.None? && r.locale.None? && r.pushTime.None?
    ensures !r.notifyChange && r.updateMenu
  {
    ChatRow(id, 0, None, None, None, false, true)
  }

  /** Every row sits under its own id, as the primary key keeps it. */
  predicate KeyedById(rows: map<int, ChatRow>)
  {
    forall k :: k in rows ==> rows[k].id == k
  }

  /** A message the bot sent: its own id and the chat it went to. */
  datatype Message = Message(messageId: int, chatId: int)

  class ChatTable {
    var rows: map<int, ChatRow>

    constructor(rows: map<int, ChatRow>)
      ensures this.rows == rows
    {
      this.rows := rows;
    }

    predicate Valid()
      reads this
    {
      KeyedById(rows)
    }

    /** `CHATS.select(CHATS.c.id == id).fetchone()`. */
    function Record(id: int): Option<ChatRow>
      reads this
    {
      if id in rows then Some(rows[id]) else None
    }

    /** `CHATS.update().where(CHATS.c.id == id).values(...)`, returning the row count. */
    method Update(id: int, change: ChatRow -> ChatRow) returns (rowcount: nat)
      modifies this
      ensures rowcount == (if id in old(rows) then 1 else 0)
      ensures rows == if id in old(rows) then old(rows)[id := change(old(rows)[id])] else old(rows)
      ensures old(Valid()) && (id in old(rows) ==> change(old(rows)[id]).id == id) ==> Valid()
    {
      if id in rows {
        rows := rows[id := change(rows[id])];
        return 1;
      }
      return 0;
    }

    /** `CHATS.insert()`: a second row with the same primary key is an integrity error. */
    method Insert(row: ChatRow) returns (r: Result<()>)
      modifies this
      ensures r.Ok? <==> row.id !in old(rows)
      ensures r.Err? ==> r.error == IntegrityError && rows == old(rows)
      ensures r.Ok? ==> rows == old(rows)[row.id := row]
      ensures old(Valid()) ==> Valid()
    {
      if row.id in rows {
        return Err(IntegrityError);
      }
      rows := rows[row.id := row];
      return Ok(());
    }

    /** `CHATS.delete().where(CHATS.c.id == id)`. */
    method Delete(id: int)
      modifies this
      ensures rows == old(rows) - {id}
      ensures old(Valid()) ==> Valid()
    {
      rows := rows - {id};
    }

    /**
     * `CHATS.update().where(CHATS.c.id == from).values(id=to)`: the row moves
     * to the new key; the new key must not be taken by another row.
     */
    method Rekey(from: int, to: int) returns (r: Result<()>)
      modifies this
      ensures r.Ok? <==> !(from in old(rows) && to in old(rows) && from != to)
      ensures r.Err? ==> r.error == IntegrityError && rows == old(rows)
      ensures r.Ok? && from in old(rows) ==>
        rows == (old(rows) - {from})[to := old(rows)[from].(id := to)]
      ensures r.Ok? && from !in old(rows) ==> rows == old(rows)
      ensures old(Valid()) ==> Valid()
    {
      if from !in rows {
        return Ok(());
      }
      if to in rows && from != to {
        return Err(IntegrityError);
      }
      var row := rows[from];
      rows := (rows - {from})[to := row.(id := to)];
      return Ok(());
    }
  }
}
