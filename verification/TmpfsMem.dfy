/**
  tmpfs memory accounting: a global pool shared by all mounts, a reservation for each
  limited mount, and the bytes every mount is charged for.
*/
module TmpfsMem {
  import opened Prelude
  import opened Sums

  const NAME_QUANTUM := 32

  /** roundup2(x, 32) */
  function RoundName(len: nat): (r: nat)
    ensures len <= r < len + NAME_QUANTUM && r % NAME_QUANTUM == 0
  {
    RoundUp(len, NAME_QUANTUM)
  }

  /** A path component as the lookup code hands it over: `len` characters of a longer buffer. */
  datatype Component = Component(buf: string, len: nat)

  predicate Terminates(c: char) {
    c == '\0' || c == '/'
  }

  /** The component is followed by a terminator, which its own characters never are. */
  predicate WellFormed(c: Component) {
    0 < c.len < |c.buf| && RoundName(c.len) <= |c.buf| && Terminates(c.buf[c.len])
    && forall i :: 0 <= i < c.len ==> !Terminates(c.buf[i])
  }

  function Name(c: Component): string
    requires c.len <= |c.buf|
  {
    c.buf[..c.len]
  }

  /** tmpfs_strname_neqlen: compares whole quanta, so it also compares bytes after the names. */
  predicate StrnameNeqlen(f: Component, t: Component)
    requires RoundName(f.len) <= |f.buf| && RoundName(t.len) <= |t.buf|
  {
    RoundName(f.len) != RoundName(t.len) || f.buf[..RoundName(f.len)] != t.buf[..RoundName(f.len)]
  }

  /** It reports equality only for equal names, although not for all of them. */
  lemma NeqlenSound(f: Component, t: Component)
    requires WellFormed(f) && WellFormed(t) && !StrnameNeqlen(f, t)
    ensures Name(f) == Name(t)
  {
    var r := RoundName(f.len);
    assert forall i :: 0 <= i < r ==> f.buf[i] == f.buf[..r][i] == t.buf[..r][i] == t.buf[i];
  }

  /** The one-letter name "a" in front of the given terminator. */
  function LetterA(end: char): Component {
    Component(['a', end] + seq(30, _ => 'x'), 1)
  }

  /** Equal names in different surroundings may still be reported as different. */
  lemma NeqlenIncomplete()
    ensures var f, t := LetterA('\0'), LetterA('/');
      WellFormed(f) && WellFormed(t) && Name(f) == Name(t) && StrnameNeqlen(f, t)
  {
    var f, t := LetterA('\0'), LetterA('/');
    assert f.buf[..32][1] != t.buf[..32][1];
    assert Name(f) == ['a'] && Name(t) == ['a'];
  }

  /** Exactly when equal names are recognised: the bytes up to the end of the quantum agree too. */
  lemma NeqlenExact(f: Component, t: Component)
    requires WellFormed(f) && WellFormed(t)
    ensures !StrnameNeqlen(f, t) <==>
      Name(f) == Name(t) && f.buf[f.len..RoundName(f.len)] == t.buf[f.len..RoundName(f.len)]
  {
    var r := RoundName(f.len);
    if !StrnameNeqlen(f, t) {
      NeqlenSound(f, t);
      assert f.buf[f.len..r] == f.buf[..r][f.len..] == t.buf[..r][f.len..] == t.buf[f.len..r];
    }
    if Name(f) == Name(t) && f.buf[f.len..r] == t.buf[f.len..r] {
      assert f.len == |Name(f)| == |Name(t)| == t.len;
      assert f.buf[..r] == Name(f) + f.buf[f.len..r];
      assert t.buf[..r] == Name(t) + t.buf[f.len..r];
    }
  }

  // ---------- the pool ----------

  /** One mount's account; limit 0 means "no limit of its own". */
  datatype Account = Account(limit: nat, used: nat)

  /** What an account takes out of the global pool. */
  function Claim(a: Account): int {
    if a.limit != 0 then a.limit else a.used
  }

  class Pool {
    const limit: nat
    var used: nat
    var mounts: map<nat, Account>

    /** Global usage is the reservations plus what unlimited mounts use; no limit is exceeded. */
    ghost predicate Valid()
      reads this
    {
      used == Total(mounts, Claim) && used <= limit
      && forall m :: m in mounts && mounts[m].limit != 0 ==> mounts[m].used <= mounts[m].limit
    }

    constructor (limit: nat)
      ensures Valid() && this.limit == limit && mounts == map[] && used == 0
    {
      this.limit, used, mounts := limit, 0, map[];
    }

    /** The accounts of the other mounts. */
    function Others(m: nat): map<nat, Account>
      reads this
    {
      mounts - {m}
    }

    /** Room left for mount `m`. */
    function Room(m: nat): int
      requires m in mounts
      reads this
    {
      if mounts[m].limit != 0 then mounts[m].limit - mounts[m].used else limit - used
    }

    /** tmpfs_mem_incr */
    method Incr(m: nat, sz: nat) returns (ok: bool)
      requires Valid() && m in mounts
      modifies this
      ensures Valid() && ok == (old(Room(m)) >= sz)
      ensures m in mounts && mounts[m] == Account(old(mounts[m].limit), old(mounts[m].used) + if ok then sz else 0)
      ensures Others(m) == old(Others(m)) && (!ok ==> used == old(used))
      ensures Room(m) == old(Room(m)) - if ok then sz else 0
    {
      var a := mounts[m];
      if a.limit != 0 {
        if a.limit - a.used < sz { return false; }
      } else {
        if limit - used < sz { return false; }
        used := used + sz;
      }
      TotalUpdate(mounts, m, Account(a.limit, a.used + sz), Claim);
      mounts := mounts[m := Account(a.limit, a.used + sz)];
      return true;
    }

    /** tmpfs_mem_decr */
    method Decr(m: nat, sz: nat)
      requires Valid() && m in mounts && mounts[m].used >= sz
      modifies this
      ensures Valid()
      ensures m in mounts && mounts[m] == Account(old(mounts[m].limit), old(mounts[m].used) - sz)
      ensures Others(m) == old(Others(m)) && Room(m) == old(Room(m)) + sz
    {
      var a := mounts[m];
      TotalUpdate(mounts, m, Account(a.limit, a.used - sz), Claim);
      if a.limit == 0 {
        TotalAtLeast(mounts, m, Claim);
        used := used - sz;
      }
      mounts := mounts[m := Account(a.limit, a.used - sz)];
    }

    /** The reservation part of tmpfs_mount: a size limit is rounded up to pages and taken at once. */
    method Open(m: nat, sizeMax: nat) returns (ok: bool)
      requires Valid() && m !in mounts
      modifies this
      ensures Valid()
      ensures ok == (RoundPage(sizeMax) <= limit - old(used)) && Others(m) == old(mounts)
      ensures if ok then m in mounts && mounts[m] == Account(RoundPage(sizeMax), 0) else mounts == old(mounts)
      ensures used == old(used) + if ok then RoundPage(sizeMax) else 0
    {
      var memlimit := 0;
      if sizeMax != 0 {
        memlimit := RoundPage(sizeMax);
        if limit - used < memlimit { return false; }
        used := used + memlimit;
      }
      TotalUpdate(mounts, m, Account(memlimit, 0), Claim);
      mounts := mounts[m := Account(memlimit, 0)];
      return true;
    }

    /** The release at the end of tmpfs_unmount; the account must be back at zero. */
    method Close(m: nat)
      requires Valid() && m in mounts && mounts[m].used == 0
      modifies this
      ensures Valid() && mounts == old(Others(m)) && used == old(used) - old(mounts[m].limit)
    {
      TotalRemove(mounts, m, Claim);
      TotalAtLeast(mounts, m, Claim);
      if mounts[m].limit != 0 {
        used := used - mounts[m].limit;
      }
      mounts := mounts - {m};
    }
  }

  function RoundPage(n: nat): (r: nat)
    ensures n <= r < n + PAGE_SIZE && r % PAGE_SIZE == 0
  {
    RoundUp(n, PAGE_SIZE)
  }
}
