/**
 The pool of reusable messages, on the heap: who owns which message, and that a holder's data stay what it
 set them to, although the buffers behind them are reused.
 */
module ObjectPool {
  import opened Common

  /** A reusable message. `data` is the slice users see, `buf` the buffer kept for reuse; they may share an array. */
  class Message {
    var kind: string
    var data: array<byte>
    var dataLen: nat
    var buf: array<byte>
    var bufLen: nat

    ghost predicate Valid()
      reads this
    {
      dataLen <= data.Length && bufLen <= buf.Length
    }

    /** What a user of the message reads. */
    ghost function Content(): seq<byte>
      reads this, data
      requires Valid()
    {
      data[..dataLen]
    }

    ghost predicate IsReset()
      reads this
    {
      kind == "" && dataLen == 0 && bufLen == 0
    }

    constructor ()
      ensures Valid() && IsReset() && fresh(buf) && fresh(data)
    {
      kind := "";
      data, dataLen := new byte[0], 0;
      buf, bufLen := new byte[1024], 0;
    }

    /** Empties the message; a buffer that was used for more than 4096 bytes is replaced by a small one. */
    method Reset()
      requires Valid()
      modifies this
      ensures Valid() && IsReset() && Content() == []
      ensures data == old(data) && (buf == old(buf) || fresh(buf))
      ensures buf.Length == if old(bufLen) > 4096 then 1024 else old(buf.Length)
    {
      kind := "";
      dataLen := 0;
      if bufLen > 4096 {
        buf := new byte[1024];
      }
      bufLen := 0;
    }

    /** Copies the bytes into the buffer, which grows if it must, and shows them as data. */
    method SetData(bytes: seq<byte>)
      requires Valid()
      modifies this, buf
      ensures Valid() && Content() == bytes && kind == old(kind)
      ensures data == buf && (buf == old(buf) || fresh(buf))
      ensures bufLen == dataLen && buf.Length == Max(old(buf.Length), |bytes|)
    {
      if buf.Length < |bytes| {
        buf := new byte[|bytes|];
      }
      bufLen := |bytes|;
      forall i | 0 <= i < |bytes| {
        buf[i] := bytes[i];
      }
      data, dataLen := buf, bufLen;
    }
  }

  /** What decides is the last size set: a buffer that once grew large stays with a message that is small when reset. */
  method LargeBufferStays(m: Message, large: seq<byte>, small: seq<byte>)
    requires m.Valid() && |large| > 4096 >= |small|
    modifies m, m.buf
    ensures m.IsReset() && m.buf.Length >= |large|
  {
    m.SetData(large);
    m.SetData(small);
    m.Reset();
  }

  class MessagePool {
    const maxSize: nat
    var idle: seq<Message>
    var created: nat
    ghost var last: map<Message, seq<byte>>        // what each holder last set its message's data to
    ghost var owner: map<array<byte>, Message>     // the message every buffer was made for
    ghost var repr: set<object>                    // the pool, its messages and their buffers

    /** The buffer of a message is its own: no other message has it. The data, if any, are in it. */
    ghost predicate OwnsBuffer(m: Message)
      reads this`owner, this`repr, m
    {
      && m.bufLen <= m.buf.Length && m.dataLen <= m.data.Length && {m, m.buf} <= repr
      && m.buf in owner && owner[m.buf] == m
      && (m.dataLen == 0 || m.data == m.buf)
    }

    /** The idle messages are reset, and no more than the pool keeps. */
    ghost predicate IdleValid()
      reads this`idle, this`owner, this`repr, idle
    {
      && this in repr && |idle| <= maxSize
      && (forall i :: 0 <= i < |idle| ==> idle[i].IsReset() && OwnsBuffer(idle[i]))
    }

    /** No message is idle twice, or idle and held. */
    ghost predicate Apart()
      reads this`idle, this`last
    {
      && (forall i, j :: 0 <= i < j < |idle| ==> idle[i] != idle[j])
      && (forall i :: 0 <= i < |idle| ==> idle[i] !in last)
    }

    /** A message shows these bytes, from its own buffer. */
    ghost predicate Shows(m: Message, bytes: seq<byte>)
      reads this`owner, this`repr, m, m.buf
    {
      OwnsBuffer(m) && m.bufLen == m.dataLen && bytes == if m.dataLen == 0 then [] else m.buf[..m.dataLen]
    }

    /** Every holder's message shows what its holder last set. */
    ghost predicate HeldValid()
      reads this, last.Keys, set m | m in last :: m.buf
    {
      forall m :: m in last ==> Shows(m, last[m])
    }

    ghost predicate Valid()
      reads this, idle, last.Keys, set m | m in last :: m.buf
    {
      IdleValid() && Apart() && HeldValid()
    }

    constructor (maxSize: nat)
      ensures Valid() && last == map[] && idle == [] && fresh(repr)
    {
      this.maxSize := maxSize;
      idle, created := [], 0;
      last, owner, repr := map[], map[], {this};
    }

    /**
     Lends the oldest idle message, or a new one; nobody holds it and it is empty. A pool that has none idle and
     has counted as many as it may waits: `late` is the message another holder puts back meanwhile, which is
     handed over; if there is none in time, a new one is made and not counted.
     */
    method Get(late: Option<Message>) returns (m: Message)
      requires Valid() && (late.Some? ==> late.value in last)
      modifies this, if late.Some? then {late.value} else {}
      ensures Valid() && m.kind == "" && fresh(repr - old(repr))
      ensures if old(idle) == [] && old(created) >= maxSize && late.Some?
              then m == late.value && last == old(last)[m := []] && idle == []
              else m !in old(last) && last == old(last)[m := []]
      ensures old(idle) != [] ==> m == old(idle)[0] && idle == old(idle)[1..]
      ensures old(idle) == [] ==> idle == [] && (fresh(m) <==> old(created) < maxSize || late == None)
      ensures created == old(created) + if old(idle) == [] && old(created) < maxSize then 1 else 0
    {
      if idle != [] {
        m := TakeIdle();
      } else if created < maxSize {
        created := created + 1;
        m := Make();
      } else if late.Some? {
        m := late.value;
        PassOn(m);
      } else {
        m := Make();
      }
    }

    /** A message that is put back goes to the next holder at once. */
    method PassOn(m: Message)
      requires Valid() && m in last
      modifies this`last, this`owner, this`repr, m
      ensures Valid() && last == old(last)[m := []] && m.kind == "" && fresh(repr - old(repr))
    {
      hide OwnsBuffer, Shows, IdleValid;
      Clear(m);
      last := last[m := []];
    }

    method TakeIdle() returns (m: Message)
      requires Valid() && idle != []
      modifies this`idle, this`last
      ensures Valid() && m !in old(last) && last == old(last)[m := []] && m.kind == ""
      ensures m == old(idle)[0] && idle == old(idle)[1..]
    {
      m := idle[0];
      assert OwnsBuffer(m) && m.IsReset();
      idle := idle[1..];
      last := last[m := []];
    }

    method Make() returns (m: Message)
      requires Valid()
      modifies this`last, this`owner, this`repr
      ensures Valid() && m !in old(last) && last == old(last)[m := []] && m.kind == ""
      ensures fresh(m) && fresh(repr - old(repr))
    {
      m := new Message();
      repr := repr + {m, m.buf};
      owner := owner[m.buf := m];
      last := last[m := []];
      forall h | h in last && h != m ensures Shows(h, last[h]) {
        assert old(Shows(h, last[h]));
      }
      forall h | h in idle ensures OwnsBuffer(h) {
        assert old(OwnsBuffer(h));
      }
    }

    /** Whatever happens to one message and its buffer, the others still show what their holders set. */
    twostate lemma OthersStillShow(m: Message)
      requires old(Valid()) && m in last && last == old(last) && idle == old(idle)
      requires forall h :: (h in last || h in idle) && h != m ==> unchanged(h)
      requires forall h :: h in last && h != m && h.buf != old(m.buf) ==> h.buf[..] == old(h.buf[..])
      requires m.buf == old(m.buf) || fresh(m.buf)
      requires old(repr) <= repr && owner == old(owner)[m.buf := m]
      ensures forall h :: h in last && h != m ==> Shows(h, last[h])
      ensures forall h :: h in idle ==> OwnsBuffer(h)
      ensures m !in idle
    {
      assert old(OwnsBuffer(m));
      forall h | h in last && h != m ensures Shows(h, last[h]) {
        assert old(Shows(h, last[h]));
      }
      IdleStillOwn(m);
    }

    twostate lemma IdleStillOwn(m: Message)
      requires old(IdleValid()) && old(OwnsBuffer(m)) && idle == old(idle) && m !in idle
      requires forall h :: h in idle ==> unchanged(h)
      requires m.buf == old(m.buf) || fresh(m.buf)
      requires old(repr) <= repr && owner == old(owner)[m.buf := m]
      ensures forall h :: h in idle ==> OwnsBuffer(h)
    {
      forall h | h in idle ensures OwnsBuffer(h) {
        assert old(OwnsBuffer(h));
      }
    }

    /** The heap's part of setting data: the bytes go into the message's own buffer, and nobody else notices. */
    method Fill(m: Message, bytes: seq<byte>)
      requires Valid() && m in last
      modifies m, m.buf, this`owner, this`repr
      ensures Shows(m, bytes) && (forall h :: h in last && h != m ==> Shows(h, last[h]))
      ensures IdleValid() && fresh(repr - old(repr))
    {
      assert OwnsBuffer(m);
      m.SetData(bytes);
      repr := repr + {m.buf};
      owner := owner[m.buf := m];
      OthersStillShow(m);
    }

    /** A holder sets the data of its message; nobody else's data change. */
    method SetData(m: Message, bytes: seq<byte>)
      requires Valid() && m in last
      modifies this`last, this`owner, this`repr, m, m.buf
      ensures Valid() && last == old(last)[m := bytes]
      ensures fresh(repr - old(repr))
    {
      hide OwnsBuffer, Shows, IdleValid;
      Fill(m, bytes);
      last := last[m := bytes];
    }

    /** Reading gives the holder what it last set. */
    method Read(m: Message) returns (bytes: seq<byte>)
      requires Valid() && m in last
      ensures bytes == last[m]
    {
      assert OwnsBuffer(m) && Shows(m, last[m]);
      bytes := m.data[..m.dataLen];
    }

    /**
     A holder gives its message back: it is reset and idle, or dropped when the pool is full. Its buffer is replaced
     by a small one exactly if the holder had set more than 4096 bytes last.
     */
    method Put(m: Message)
      requires Valid() && m in last
      modifies this, m
      ensures Valid() && last == old(last) - {m}
      ensures idle == if |old(idle)| < maxSize then old(idle) + [m] else old(idle)
      ensures m.buf.Length == if |old(last[m])| > 4096 then 1024 else old(m.buf.Length)
      ensures fresh(repr - old(repr))
    {
      hide OwnsBuffer, Shows;
      Retire(m);
      if |idle| < maxSize {
        idle := idle + [m];
      }
    }

    /** The heap's part of handing a message back: it is reset, and nobody else notices. */
    method Clear(m: Message)
      requires Valid() && m in last
      modifies this`owner, this`repr, m
      ensures OwnsBuffer(m) && m.IsReset() && Shows(m, []) && m !in idle
      ensures (forall h :: h in last && h != m ==> Shows(h, last[h])) && IdleValid() && fresh(repr - old(repr))
      ensures m.buf.Length == if |old(last[m])| > 4096 then 1024 else old(m.buf.Length)
    {
      assert Shows(m, last[m]);
      m.Reset();
      repr := repr + {m.buf};
      owner := owner[m.buf := m];
      OthersStillShow(m);
    }

    /** Resets a message that is handed back; it belongs to nobody now. */
    method Retire(m: Message)
      requires Valid() && m in last
      modifies this`last, this`owner, this`repr, m
      ensures Valid() && last == old(last) - {m} && m !in idle
      ensures OwnsBuffer(m) && m.IsReset() && fresh(repr - old(repr))
      ensures m.buf.Length == if |old(last[m])| > 4096 then 1024 else old(m.buf.Length)
    {
      hide OwnsBuffer, Shows, IdleValid;
      Clear(m);
      last := last - {m};
    }
  }

  // ---------------------------------------------------------------- many holders

  /** `from` is the holder that puts its message back while an acquisition goes on, if one does. */
  datatype Op = Acquire(h: nat, from: Option<nat>) | Fill(h: nat, bytes: seq<byte>) | Look(h: nat) | Release(h: nat)

  function Others(store: map<nat, seq<byte>>, from: Option<nat>): map<nat, seq<byte>> {
    if from.Some? then store - {from.value} else store
  }

  /** What an operation does if each holder has a private value and there is no pool at all, and what it reads. */
  function Privately(op: Op, store: map<nat, seq<byte>>): (map<nat, seq<byte>>, seq<seq<byte>>) {
    match op
    case Acquire(h, from) => (if h in store then store else Others(store, from)[h := []], [])
    case Fill(h, bytes) => (if h in store then store[h := bytes] else store, [])
    case Look(h) => (store, if h in store then [store[h]] else [])
    case Release(h) => (store - {h}, [])
  }

  /** What the holders see in the end. */
  function Isolated(ops: seq<Op>, store: map<nat, seq<byte>>): seq<seq<byte>> {
    if ops == [] then []
    else
      var (store', read) := Privately(ops[0], store);
      read + Isolated(ops[1..], store')
  }

  /** Each holder has a message of its own among those lent out, with the data it should have. */
  ghost predicate Owns(last: map<Message, seq<byte>>, table: map<nat, Message>, store: map<nat, seq<byte>>) {
    && table.Keys == store.Keys
    && (forall h :: h in table ==> table[h] in last && last[table[h]] == store[h])
    && (forall h, k :: h in table && k in table && h != k ==> table[h] != table[k])
  }

  lemma OwnsOne(last: map<Message, seq<byte>>, table: map<nat, Message>, store: map<nat, seq<byte>>, h: nat)
    requires Owns(last, table, store)
    ensures h in table <==> h in store
    ensures h in table ==> table[h] in last && last[table[h]] == store[h]
  {
  }

  lemma OwnsOneMore(last: map<Message, seq<byte>>, table: map<nat, Message>, store: map<nat, seq<byte>>, h: nat, m: Message)
    requires Owns(last, table, store) && h !in table && m !in last
    ensures Owns(last[m := []], table[h := m], store[h := []])
  {
  }

  lemma OwnsChanged(last: map<Message, seq<byte>>, table: map<nat, Message>, store: map<nat, seq<byte>>, h: nat, bytes: seq<byte>)
    requires Owns(last, table, store) && h in table
    ensures Owns(last[table[h] := bytes], table, store[h := bytes])
  {
  }

  /**
   An acquisition, with another holder putting its message back meanwhile: handed over if the acquisition has to
   wait for it, put back behind it if not.
   */
  method Lend(pool: MessagePool, table: map<nat, Message>, h: nat, from: Option<nat>, ghost store: map<nat, seq<byte>>)
    returns (table': map<nat, Message>)
    requires pool.Valid() && Owns(pool.last, table, store) && h !in table
    modifies pool.repr
    ensures pool.Valid() && Owns(pool.last, table', Others(store, from)[h := []])
    ensures fresh(pool.repr - old(pool.repr))
  {
    if from.Some? && from.value in table {
      OwnsOne(pool.last, table, store, from.value);
      assert pool.OwnsBuffer(table[from.value]);
    }
    hide Owns;
    if from == None || from.value !in table {
      table' := LendAlone(pool, table, h, store);
    } else if pool.idle == [] && pool.created >= pool.maxSize {
      table' := LendPassedOn(pool, table, h, from.value, store);
    } else {
      table' := LendThenPutBack(pool, table, h, from.value, store);
    }
  }

  method LendThenPutBack(pool: MessagePool, table: map<nat, Message>, h: nat, from: nat, ghost store: map<nat, seq<byte>>)
    returns (table': map<nat, Message>)
    requires pool.Valid() && Owns(pool.last, table, store) && h !in table && from in table
    modifies pool, table[from]
    ensures pool.Valid() && Owns(pool.last, table', (store - {from})[h := []])
    ensures fresh(pool.repr - old(pool.repr))
  {
    hide Owns, MessagePool.Valid;
    TakenAndPutBack(store, h, from);
    table' := LendAlone(pool, table, h, store);
    table' := PutBack(pool, table', from, store[h := []]);
  }

  lemma TakenAndPutBack(store: map<nat, seq<byte>>, h: nat, from: nat)
    requires h != from
    ensures store[h := []] - {from} == (store - {from})[h := []]
  {
  }

  method LendPassedOn(pool: MessagePool, table: map<nat, Message>, h: nat, from: nat, ghost store: map<nat, seq<byte>>)
    returns (table': map<nat, Message>)
    requires pool.Valid() && Owns(pool.last, table, store) && h !in table && from in table
    requires pool.idle == [] && pool.created >= pool.maxSize
    modifies pool, table[from]
    ensures pool.Valid() && Owns(pool.last, table', (store - {from})[h := []])
    ensures fresh(pool.repr - old(pool.repr))
  {
    OwnsOne(pool.last, table, store, from);
    hide Owns;
    var m := pool.Get(Some(table[from]));
    table' := (table - {from})[h := m];
  }

  method LendAlone(pool: MessagePool, table: map<nat, Message>, h: nat, ghost store: map<nat, seq<byte>>)
    returns (table': map<nat, Message>)
    requires pool.Valid() && Owns(pool.last, table, store) && h !in table
    modifies pool
    ensures pool.Valid() && Owns(pool.last, table', store[h := []])
    ensures h in table' && table' == table[h := table'[h]]
    ensures fresh(pool.repr - old(pool.repr))
  {
    hide Owns;
    ghost var last := pool.last;
    var m := pool.Get(None);
    table' := table[h := m];
    OwnsOneMore(last, table, store, h, m);
  }

  method PutBack(pool: MessagePool, table: map<nat, Message>, h: nat, ghost store: map<nat, seq<byte>>)
    returns (table': map<nat, Message>)
    requires pool.Valid() && Owns(pool.last, table, store) && h in table
    modifies pool, table[h]
    ensures pool.Valid() && Owns(pool.last, table', store - {h})
    ensures fresh(pool.repr - old(pool.repr))
  {
    OwnsOne(pool.last, table, store, h);
    hide Owns;
    pool.Put(table[h]);
    table' := table - {h};
  }

  /** The pool's side of one operation: the holders' messages are again what they should be. */
  method Do(pool: MessagePool, table: map<nat, Message>, op: Op, ghost store: map<nat, seq<byte>>)
    returns (table': map<nat, Message>, read: seq<seq<byte>>)
    requires pool.Valid() && Owns(pool.last, table, store)
    modifies pool.repr
    ensures pool.Valid() && Owns(pool.last, table', Privately(op, store).0) && read == Privately(op, store).1
    ensures fresh(pool.repr - old(pool.repr))
  {
    table', read := table, [];
    OwnsOne(pool.last, table, store, op.h);
    assert op.h in table ==> pool.OwnsBuffer(table[op.h]);
    hide Owns;
    match op {
      case Acquire(h, from) =>
        if h !in table {
          table' := Lend(pool, table, h, from, store);
        }
      case Fill(h, bytes) =>
        if h in table {
          OwnsChanged(pool.last, table, store, h, bytes);
          pool.SetData(table[h], bytes);
        }
      case Look(h) =>
        if h in table {
          var bytes := pool.Read(table[h]);
          read := [bytes];
        }
      case Release(h) =>
        if h in table {
          table' := PutBack(pool, table, h, store);
        } else {
          assert store - {h} == store;
        }
    }
  }

  lemma IsolatedFrom(ops: seq<Op>, i: nat, store: map<nat, seq<byte>>)
    requires i < |ops|
    ensures Isolated(ops[i..], store) == Privately(ops[i], store).1 + Isolated(ops[i + 1..], Privately(ops[i], store).0)
  {
    assert ops[i..][1..] == ops[i + 1..];
  }

  lemma NothingIsSeen(store: map<nat, seq<byte>>)
    ensures Isolated([], store) == []
  {
  }

  /**
   Non-interference. Whatever sequence of operations many holders make on one pool of any size, what they
   read is what they would read if every one of them had a private value.
   */
  method Serve(maxSize: nat, ops: seq<Op>) returns (seen: seq<seq<byte>>)
    ensures seen == Isolated(ops, map[])
  {
    seen := [];
    var pool := new MessagePool(maxSize);
    var table: map<nat, Message> := map[];
    ghost var store: map<nat, seq<byte>> := map[];
    hide Isolated, Privately;
    for i := 0 to |ops|
      invariant fresh(pool.repr) && pool.Valid() && Owns(pool.last, table, store)
      invariant Isolated(ops, map[]) == seen + Isolated(ops[i..], store)
    {
      ghost var was := store;
      var read;
      table, read := Do(pool, table, ops[i], store);
      store := Privately(ops[i], store).0;
      IsolatedFrom(ops, i, was);
      seen := seen + read;
    }
    NothingIsSeen(store);
    assert ops[|ops|..] == [] && seen + [] == seen;
  }
}
