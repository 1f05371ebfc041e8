/** linux_exec.c: reading argv and envp out of the calling program, before anything is replaced. */
module ExecStaging {
  import opened Bytes
  import opened CStrings
  import opened LinuxMemory

  const VECTOR_MAX := 64
  const STRING_MAX := 8192
  const PATH_MAX := 128

  /** A program's memory: `arena` seen at `base`. */
  datatype View = View(base: nat, arena: seq<Byte>)

  predicate InUser(v: View, address: int, length: nat) {
    v.base <= address <= v.base + |v.arena| && length <= v.base + |v.arena| - address
  }

  function ByteAt(v: View, address: int): Byte
    requires InUser(v, address, 1)
  {
    v.arena[address - v.base]
  }

  function WordAt(v: View, address: int): Word
    requires InUser(v, address, 4)
  {
    Load32(v.arena, address - v.base)
  }

  datatype Staged<T> = Got(value: T) | Fault | TooBig

  /** A user string, when `room` bytes of staging are left. */
  function UserString(v: View, address: int, room: nat): (r: Staged<seq<Byte>>)
    ensures r.Got? ==> |r.value| < room && forall i :: 0 <= i < |r.value| ==> r.value[i] != 0
    decreases room
  {
    if room == 0 then TooBig
    else if !InUser(v, address, 1) then Fault
    else if ByteAt(v, address) == 0 then Got([])
    else
      match UserString(v, address + 1, room - 1)
      case Got(s) => Got([ByteAt(v, address)] + s)
      case Fault => Fault
      case TooBig => TooBig
  }

  /** The bytes a list of strings takes, each with its NUL. */
  function Size(list: seq<seq<Byte>>): nat {
    if list == [] then 0 else Size(list[..|list| - 1]) + |list[|list| - 1]| + 1
  }

  /** The strings of a user vector from its `|done|`-th on, with `done` staged before it. */
  function UserStrings(v: View, address: int, done: seq<seq<Byte>>, room: nat): (r: Staged<seq<seq<Byte>>>)
    requires |done| <= VECTOR_MAX
    decreases VECTOR_MAX - |done|
  {
    if !InUser(v, address, 4) then Fault
    else if WordAt(v, address) == 0 then Got(done)
    else if |done| == VECTOR_MAX then TooBig
    else
      match UserString(v, WordAt(v, address), room)
      case Fault => Fault
      case TooBig => TooBig
      case Got(s) => UserStrings(v, address + 4, done + [s], room - |s| - 1)
  }

  /** A vector; a null one is empty. */
  function UserVector(v: View, address: int, room: nat): Staged<seq<seq<Byte>>> {
    if address == 0 then Got([]) else UserStrings(v, address, [], room)
  }

  // ------------------------------------------------------------ what is in a program's memory

  /** `text` stands at `address`. */
  ghost predicate TextAt(v: View, address: int, text: seq<Byte>) {
    v.base <= address && StoredAt(v.arena, |v.arena|, address - v.base, text)
  }

  lemma {:induction false} TextReads(v: View, address: int, text: seq<Byte>, room: nat)
    requires TextAt(v, address, text) && |text| < room
    ensures UserString(v, address, room) == Got(text)
    decreases |text|
  {
    var at := address - v.base;
    if text != [] {
      assert v.arena[at..at + |text|][0] == text[0];
      assert v.arena[at + 1..at + 1 + |text[1..]|] == v.arena[at..at + |text|][1..];
      TextReads(v, address + 1, text[1..], room - 1);
      assert [text[0]] + text[1..] == text;
    }
  }

  /** A null-terminated vector of pointers to the strings of `list` stands at `address`. */
  ghost predicate VectorAt(v: View, address: int, list: seq<seq<Byte>>) {
    && InUser(v, address, 4 * |list| + 4)
    && (forall i :: 0 <= i < |list| ==> WordAt(v, address + 4 * i) != 0 && TextAt(v, WordAt(v, address + 4 * i), list[i]))
    && WordAt(v, address + 4 * |list|) == 0
  }

  /** Such a vector is read as that list, if it is not too big. */
  lemma {:induction false} VectorReads(v: View, address: int, list: seq<seq<Byte>>, k: nat, room: nat)
    requires VectorAt(v, address, list) && k <= |list| <= VECTOR_MAX && Size(list) <= room + Size(list[..k])
    ensures UserStrings(v, address + 4 * k, list[..k], room) == Got(list)
    decreases |list| - k
  {
    hide UserString, TextAt, Size, WordAt;
    VectorEntry(v, address, list, k);
    if k == |list| {
      assert list[..k] == list;
    } else {
      SizeStep(list, k);
      TextReads(v, WordAt(v, address + 4 * k), list[k], room);
      assert list[..k] + [list[k]] == list[..k + 1];
      VectorReads(v, address, list, k + 1, room - |list[k]| - 1);
    }
  }

  lemma VectorEntry(v: View, address: int, list: seq<seq<Byte>>, k: nat)
    requires VectorAt(v, address, list) && k <= |list|
    ensures InUser(v, address + 4 * k, 4) && (WordAt(v, address + 4 * k) == 0 <==> k == |list|)
    ensures k < |list| ==> TextAt(v, WordAt(v, address + 4 * k), list[k])
  {
  }

  lemma SizeStep(list: seq<seq<Byte>>, k: nat)
    requires k < |list|
    ensures Size(list[..k + 1]) == Size(list[..k]) + |list[k]| + 1 <= Size(list)
  {
    SizePrefix(list, k + 1);
    assert list[..k + 1][..k] == list[..k] && list[..k + 1][k] == list[k];
  }

  lemma {:induction false} SizePrefix(list: seq<seq<Byte>>, k: nat)
    requires k <= |list|
    ensures Size(list[..k]) <= Size(list)
    decreases |list|
  {
    if k < |list| {
      var n := |list| - 1;
      assert list[..n][..k] == list[..k];
      SizePrefix(list[..n], k);
    } else {
      assert list[..k] == list;
    }
  }

  // ------------------------------------------------------------ the staging area

  /** Strings `list` are staged: string i at `offsets[at + i]`. */
  ghost predicate Listed(strings: seq<Byte>, used: nat, offsets: seq<nat>, at: nat, list: seq<seq<Byte>>) {
    && used <= |strings| && at + |list| <= |offsets|
    && forall i :: 0 <= i < |list| ==> StoredAt(strings, used, offsets[at + i], list[i])
  }

  lemma ListedMore(s: seq<Byte>, used: nat, t: seq<Byte>, more: nat, offsets: seq<nat>, offset: nat, at: nat, list: seq<seq<Byte>>, text: seq<Byte>)
    requires Listed(s, used, offsets, at, list) && at + |list| < |offsets| && |s| == |t| && used <= more <= |t| && s[..used] == t[..used]
    requires StoredAt(t, more, offset, text)
    ensures Listed(t, more, offsets[at + |list| := offset], at, list + [text])
  {
    hide StoredAt;
    forall i | 0 <= i < |list| + 1 ensures StoredAt(t, more, offsets[at + |list| := offset][at + i], (list + [text])[i]) {
      if i < |list| {
        StoredKept(s, t, used, more, offsets[at + i], list[i]);
      }
    }
  }

  /** Other entries of the offsets table and more strings do not disturb a list. */
  lemma ListedKept(s: seq<Byte>, used: nat, t: seq<Byte>, more: nat, offsets: seq<nat>, offsets1: seq<nat>, at: nat, list: seq<seq<Byte>>)
    requires Listed(s, used, offsets, at, list) && |s| == |t| && used <= more <= |t| && s[..used] == t[..used]
    requires |offsets| == |offsets1| && forall i :: at <= i < at + |list| ==> offsets1[i] == offsets[i]
    ensures Listed(t, more, offsets1, at, list)
  {
    hide StoredAt;
    forall i | 0 <= i < |list| ensures StoredAt(t, more, offsets1[at + i], list[i]) {
      StoredKept(s, t, used, more, offsets[at + i], list[i]);
    }
  }

  class Staging {
    const mem: Memory
    const strings: array<Byte>
    const offsets: array<nat>
    var used: nat

    constructor (mem: Memory)
      ensures this.mem == mem && fresh(strings) && fresh(offsets) && Sizes() && used == 0
    {
      this.mem, used := mem, 0;
      strings := new Byte[STRING_MAX](i => 0);
      offsets := new nat[2 * VECTOR_MAX](i => 0);
    }

    ghost predicate Sizes()
      reads this
    {
      strings.Length == STRING_MAX && offsets.Length == 2 * VECTOR_MAX && used <= STRING_MAX
    }

    ghost function V(): View
      reads mem
    {
      View(mem.base, mem.arena)
    }

    /** stage_string on a user address. */
    method StageString(address: nat) returns (error: int, offset: nat)
      requires Sizes() && |mem.arena| == mem.size
      modifies this`used, strings
      ensures Sizes() && old(used) <= used && strings[..old(used)] == old(strings[..used]) && offset == old(used)
      ensures error == (match UserString(V(), address, STRING_MAX - old(used)) case Got(_) => 0 case Fault => -14 case TooBig => -7)
      ensures error == 0 ==> StoredAt(strings[..], used, offset, UserString(V(), address, STRING_MAX - old(used)).value)
      ensures error == 0 ==> used == old(used) + |UserString(V(), address, STRING_MAX - old(used)).value| + 1
    {
      hide StoredAt;
      offset := used;
      ghost var v, before, text: seq<Byte> := V(), strings[..used], [];
      Begun(strings[..], used);
      JoinStart(UserString(v, address, STRING_MAX - offset));
      var p: nat := address;
      while true
        invariant Sizes() && Growing(before, strings[..], used, text) && used == offset + |text|
        invariant Joined(UserString(v, address, STRING_MAX - offset), text, UserString(v, p, STRING_MAX - used))
        decreases STRING_MAX - used
      {
        GrowPrefix(before, strings[..], used, text);
        if used == STRING_MAX {
          return -7, offset;
        }
        if !mem.UserRange(p, 1) {
          return -14, offset;
        }
        var ch := mem.arena[p - mem.base];
        p := p + 1;
        if ch == 0 {
          GrowEnd(before, strings[..], used, text);
        } else {
          GrowMore(before, strings[..], used, text, ch);
        }
        strings[used] := ch;
        used := used + 1;
        if ch == 0 {
          assert text + [] == text;
          return 0, offset;
        }
        JoinMore(UserString(v, address, STRING_MAX - offset), text, ch, UserString(v, p, STRING_MAX - used));
        text := text + [ch];
      }
    }

    /** stage_string on a string of the kernel's own. */
    method StageKernel(text: seq<Byte>) returns (error: int, offset: nat)
      requires Sizes() && forall i :: 0 <= i < |text| ==> text[i] != 0
      modifies this`used, strings
      ensures Sizes() && old(used) <= used && strings[..old(used)] == old(strings[..used]) && offset == old(used)
      ensures error == if old(used) + |text| < STRING_MAX then 0 else -7
      ensures error == 0 ==> StoredAt(strings[..], used, offset, text) && used == old(used) + |text| + 1
    {
      hide StoredAt;
      offset := used;
      ghost var before := strings[..used];
      Begun(strings[..], used);
      var i := 0;
      while true
        invariant 0 <= i <= |text| && Sizes() && Growing(before, strings[..], used, text[..i]) && used == offset + i
        decreases |text| - i
      {
        GrowPrefix(before, strings[..], used, text[..i]);
        if used == STRING_MAX {
          return -7, offset;
        }
        if i == |text| {
          assert text[..i] == text;
          GrowEnd(before, strings[..], used, text);
          strings[used] := 0;
          used := used + 1;
          return 0, offset;
        }
        GrowMore(before, strings[..], used, text[..i], text[i]);
        assert text[..i] + [text[i]] == text[..i + 1];
        strings[used] := text[i];
        used, i := used + 1, i + 1;
      }
    }

    /** stage_vector. */
    method StageVector(address: nat, at: nat) returns (error: int, count: nat)
      requires Sizes() && |mem.arena| == mem.size && at + VECTOR_MAX <= 2 * VECTOR_MAX
      modifies this`used, strings, offsets
      ensures Sizes() && old(used) <= used && strings[..old(used)] == old(strings[..used])
      ensures forall i :: 0 <= i < 2 * VECTOR_MAX && !(at <= i < at + VECTOR_MAX) ==> offsets[i] == old(offsets[i])
      ensures error == (match UserVector(V(), address, STRING_MAX - old(used)) case Got(_) => 0 case Fault => -14 case TooBig => -7)
      ensures error == 0 ==> count == |UserVector(V(), address, STRING_MAX - old(used)).value| <= VECTOR_MAX
      ensures error == 0 ==> Listed(strings[..], used, offsets[..], at, UserVector(V(), address, STRING_MAX - old(used)).value)
      ensures error == 0 ==> used == old(used) + Size(UserVector(V(), address, STRING_MAX - old(used)).value)
    {
      hide StoredAt, UserString, Listed, Size;
      ghost var v, u, list: seq<seq<Byte>> := V(), used, [];
      count := 0;
      NothingListed(strings[..], used, offsets[..], at);
      if address == 0 {
        return 0, 0;
      }
      var p: nat := address;
      while true
        invariant Sizes() && u <= used && strings[..u] == old(strings[..used]) && count == |list| <= VECTOR_MAX
        invariant Listed(strings[..], used, offsets[..], at, list) && used == u + Size(list)
        invariant forall i :: 0 <= i < 2 * VECTOR_MAX && !(at <= i < at + VECTOR_MAX) ==> offsets[i] == old(offsets[i])
        invariant UserVector(v, address, STRING_MAX - u) == UserStrings(v, p, list, STRING_MAX - used)
        decreases VECTOR_MAX - count
      {
        if !mem.UserRange(p, 4) {
          return -14, count;
        }
        var pointer := Load32(mem.arena, p - mem.base);
        if pointer == 0 {
          return 0, count;
        }
        if count == VECTOR_MAX {
          return -7, count;
        }
        ghost var s, room := strings[..], STRING_MAX - used;
        ghost var w := used;
        var offset: nat;
        error, offset := StageString(pointer);
        if error != 0 {
          PrefixTrans(old(strings[..]), s, strings[..], u, w);
          return error, count;
        }
        ghost var text := UserString(v, pointer, room).value;
        ListedMore(s, w, strings[..], used, offsets[..], offset, at, list, text);
        SizeMore(list, text);
        PrefixTrans(old(strings[..]), s, strings[..], u, w);
        offsets[at + count] := offset;
        list := list + [text];
        count, p := count + 1, p + 4;
      }
    }
  }

  lemma PrefixTrans(a: seq<Byte>, b: seq<Byte>, c: seq<Byte>, u: nat, w: nat)
    requires u <= w <= |a| && |a| == |b| == |c| && b[..u] == a[..u] && c[..w] == b[..w]
    ensures c[..u] == a[..u]
  {
    assert c[..u] == c[..w][..u] == b[..w][..u] == b[..u];
  }

  lemma SizeMore(list: seq<seq<Byte>>, text: seq<Byte>)
    ensures Size(list + [text]) == Size(list) + |text| + 1
  {
    assert (list + [text])[..|list|] == list;
  }

  lemma NothingListed(s: seq<Byte>, used: nat, offsets: seq<nat>, at: nat)
    requires used <= |s| && at <= |offsets|
    ensures Listed(s, used, offsets, at, []) && Size([]) == 0
  {
  }

  /** The string read from the start is `text` followed by what is still to come. */
  ghost predicate Joined(all: Staged<seq<Byte>>, text: seq<Byte>, rest: Staged<seq<Byte>>) {
    match rest
    case Got(s) => all == Got(text + s)
    case Fault => all == Fault
    case TooBig => all == TooBig
  }

  lemma JoinStart(all: Staged<seq<Byte>>)
    ensures Joined(all, [], all)
  {
    if all.Got? {
      assert [] + all.value == all.value;
    }
  }

  lemma JoinMore(all: Staged<seq<Byte>>, text: seq<Byte>, ch: Byte, rest: Staged<seq<Byte>>)
    requires Joined(all, text, if rest.Got? then Got([ch] + rest.value) else rest)
    ensures Joined(all, text + [ch], rest)
  {
    if rest.Got? {
      assert text + ([ch] + rest.value) == text + [ch] + rest.value;
    }
  }

  // ------------------------------------------------------------ exactly what can be read

  /** What is read as a string stands there. */
  lemma {:induction false} ReadText(v: View, address: int, room: nat)
    requires UserString(v, address, room).Got?
    ensures TextAt(v, address, UserString(v, address, room).value)
    decreases room
  {
    var at := address - v.base;
    if ByteAt(v, address) != 0 {
      ReadText(v, address + 1, room - 1);
      var s := UserString(v, address + 1, room - 1).value;
      assert v.arena[at..at + 1 + |s|] == [v.arena[at]] + v.arena[at + 1..at + 1 + |s|];
    }
  }

  /** What is read as the rest of a vector stands there. */
  lemma {:induction false} ReadVector(v: View, address: int, done: seq<seq<Byte>>, room: nat)
    requires |done| <= VECTOR_MAX && UserStrings(v, address + 4 * |done|, done, room).Got?
    requires InUser(v, address, 4 * |done|)
    requires forall i :: 0 <= i < |done| ==> WordAt(v, address + 4 * i) != 0 && TextAt(v, WordAt(v, address + 4 * i), done[i])
    ensures var list := UserStrings(v, address + 4 * |done|, done, room).value;
      VectorAt(v, address, list) && |list| <= VECTOR_MAX && Size(list) <= Size(done) + room
    decreases VECTOR_MAX - |done|
  {
    hide UserString, TextAt, WordAt;
    if WordAt(v, address + 4 * |done|) != 0 {
      ReadText(v, WordAt(v, address + 4 * |done|), room);
      var s := UserString(v, WordAt(v, address + 4 * |done|), room).value;
      assert (done + [s])[..|done|] == done;
      ReadVector(v, address, done + [s], room - |s| - 1);
    }
  }

  /** A null vector is empty; any other stands in memory with at most 64 strings. */
  ghost predicate VectorIn(v: View, address: int, list: seq<seq<Byte>>) {
    |list| <= 64 && if address == 0 then list == [] else VectorAt(v, address, list)
  }

  /** A string is read exactly when one stands there that leaves room for its NUL, and a vector
      exactly when one stands there whose strings fit. */
  lemma Readable(v: View, address: int, room: nat)
    ensures UserString(v, address, room).Got? <==> exists text :: TextAt(v, address, text) && |text| < room
    ensures forall text :: TextAt(v, address, text) && |text| < room ==> UserString(v, address, room) == Got(text)
    ensures UserVector(v, address, room).Got? <==> exists list :: VectorIn(v, address, list) && Size(list) <= room
    ensures forall list :: VectorIn(v, address, list) && Size(list) <= room ==> UserVector(v, address, room) == Got(list)
  {
    hide UserString, TextAt, WordAt, VectorAt, UserStrings;
    if UserString(v, address, room).Got? {
      ReadText(v, address, room);
    }
    forall text | TextAt(v, address, text) && |text| < room ensures UserString(v, address, room) == Got(text) {
      TextReads(v, address, text, room);
    }
    if UserVector(v, address, room).Got? {
      if address != 0 {
        RestThere(v, address, room);
      }
      assert VectorIn(v, address, UserVector(v, address, room).value);
    }
    forall list | VectorIn(v, address, list) && Size(list) <= room ensures UserVector(v, address, room) == Got(list) {
      if address != 0 {
        assert list[..0] == [];
        VectorReads(v, address, list, 0, room);
      }
    }
  }

  lemma RestThere(v: View, address: int, room: nat)
    requires UserStrings(v, address, [], room).Got?
    ensures var list := UserStrings(v, address, [], room).value; VectorAt(v, address, list) && |list| <= 64 && Size(list) <= room
  {
    hide UserString, TextAt, WordAt, VectorAt;
    if InUser(v, address, 4) {
      ReadVector(v, address, [], room);
    }
  }
}
