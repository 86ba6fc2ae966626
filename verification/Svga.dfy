/** The 800x600 framebuffer behind a 64 KB bank window. */
module Svga {
  import opened Basics

  const WIDTH: nat := 800
  const HEIGHT: nat := 600
  const TOTAL: nat := 480000
  const WINDOW: nat := 0x10000
  /** Video memory behind the sixteen banks the register can name. */
  const MEMORY: nat := 0x100000

  /** `v` is `v0` with `n` bytes from `src` on copied to `dst`. */
  ghost predicate Moved(v0: seq<byte>, v: seq<byte>, dst: nat, src: nat, n: nat) {
    |v| == |v0| && forall o :: 0 <= o < |v| ==> v[o] == Source(v0, dst, src, n, o)
  }

  function Source(v0: seq<byte>, dst: nat, src: nat, n: nat, o: nat): byte
    requires o < |v0|
  {
    if dst <= o < dst + n && 0 <= src + (o - dst) < |v0| then v0[src + (o - dst)] else v0[o]
  }

  lemma MovedNone(v0: seq<byte>, dst: nat, src: nat)
    ensures Moved(v0, v0, dst, src, 0)
  {
  }

  /** Going downwards, a copy in pieces never reads what it has overwritten. */
  lemma MovedMore(v0: seq<byte>, v1: seq<byte>, v2: seq<byte>, dst: nat, src: nat, done: nat, n: nat)
    requires src + done + n <= |v0| && dst + done + n <= |v0|
    requires dst <= src || src + done + n <= dst
    requires Moved(v0, v1, dst, src, done) && Moved(v1, v2, dst + done, src + done, n)
    ensures Moved(v0, v2, dst, src, done + n)
  {
    forall o | 0 <= o < |v2| ensures v2[o] == Source(v0, dst, src, done + n, o) {
      assert v2[o] == Source(v1, dst + done, src + done, n, o);
      if dst + done <= o < dst + done + n {
        var q := src + (o - dst);
        assert v1[q] == Source(v0, dst, src, done, q);
      } else {
        assert v1[o] == Source(v0, dst, src, done, o);
      }
    }
  }

  class Framebuffer {
    const vram: array<byte>
    /** The bank last selected, 0xFF before the first selection. */
    var currentBank: nat
    /** The adapter's bank register, in units of 4 KB. */
    var bankRegister: nat
    const bounce: array<byte>

    ghost predicate Valid()
      reads this
    {
      && vram.Length == MEMORY && bounce.Length == WIDTH && vram != bounce
      && (currentBank == 0xFF || (currentBank < 16 && bankRegister == 16 * currentBank))
    }

    constructor (memory: array<byte>)
      requires memory.Length == MEMORY
      ensures Valid() && vram == memory && fresh(bounce)
    {
      vram := memory;
      bounce := new byte[WIDTH](_ => 0);
      currentBank := 0xFF;
      bankRegister := 0;
    }

    /** Selects a bank unless it is selected already. */
    method SetBank(bank: nat)
      requires Valid() && bank < 16
      modifies this
      ensures Valid() && currentBank == bank && bankRegister == 16 * bank
    {
      if bank == currentBank { return; }
      currentBank := bank;
      bankRegister := 16 * bank;
    }

    method Clear(color: byte)
      requires Valid()
      modifies this, vram
      ensures Valid()
      ensures forall o :: 0 <= o < MEMORY ==> vram[o] == if o < TOTAL then color else old(vram[o])
    {
      var offset := 0;
      while offset < TOTAL
        invariant Valid() && offset % WINDOW == 0 && offset <= TOTAL + WINDOW
        invariant forall o :: 0 <= o < MEMORY ==> vram[o] == if o < offset && o < TOTAL then color else old(vram[o])
        decreases TOTAL - offset
      {
        SetBank(offset / WINDOW);
        var chunk := TOTAL - offset;
        if chunk > WINDOW { chunk := WINDOW; }
        var base := 4096 * bankRegister;
        assert base == offset;
        ghost var before := vram[..];
        forall i | 0 <= i < chunk { vram[base + i] := color; }
        forall o | offset <= o < offset + chunk ensures vram[o] == color {
          assert vram[base + (o - base)] == color;
        }
        offset := offset + WINDOW;
      }
    }

    /** Sets one pixel; coordinates off the screen are ignored. */
    method PutPixel(x: int, y: int, color: byte)
      requires Valid()
      modifies this, vram
      ensures Valid()
      ensures forall o :: 0 <= o < MEMORY ==>
                vram[o] == if 0 <= x < WIDTH && 0 <= y < HEIGHT && o == y * WIDTH + x then color else old(vram[o])
    {
      if x < 0 || x >= WIDTH || y < 0 || y >= HEIGHT { return; }
      var offset := y * WIDTH + x;
      SetBank(offset / WINDOW);
      vram[4096 * bankRegister + offset % WINDOW] := color;
    }

    /** Reads a linear range through the window. */
    method FbRead(from: nat, dst: array<byte>, count: nat)
      requires Valid() && dst != vram && count <= dst.Length && from + count <= MEMORY
      modifies this, dst
      ensures Valid() && forall i :: 0 <= i < count ==> dst[i] == vram[from + i]
      ensures forall i :: count <= i < dst.Length ==> dst[i] == old(dst[i])
    {
      var off: nat, at: nat, left: nat := from, 0, count;
      while left > 0
        invariant Valid() && at + left == count && off == from + at
        invariant forall i :: 0 <= i < at ==> dst[i] == vram[from + i]
        invariant forall i :: count <= i < dst.Length ==> dst[i] == old(dst[i])
        decreases left
      {
        SetBank(off / WINDOW);
        var win := off % WINDOW;
        var n := WINDOW - win;
        if n > left { n := left; }
        var base := 4096 * bankRegister + win;
        assert base == off;
        forall i | 0 <= i < n { dst[at + i] := vram[base + i]; }
        forall i | at <= i < at + n ensures dst[i] == vram[from + i] {
          assert dst[at + (i - at)] == vram[base + (i - at)];
        }
        off, at, left := off + n, at + n, left - n;
      }
    }

    /** Writes a linear range through the window. */
    method FbWrite(to: nat, src: array<byte>, count: nat)
      requires Valid() && src != vram && count <= src.Length && to + count <= MEMORY
      modifies this, vram
      ensures Valid()
      ensures forall o :: 0 <= o < MEMORY ==> vram[o] == if to <= o < to + count then src[o - to] else old(vram[o])
    {
      var off: nat, at: nat, left: nat := to, 0, count;
      while left > 0
        invariant Valid() && at + left == count && off == to + at
        invariant forall o :: 0 <= o < MEMORY ==> vram[o] == if to <= o < to + at then src[o - to] else old(vram[o])
        decreases left
      {
        SetBank(off / WINDOW);
        var win := off % WINDOW;
        var n := WINDOW - win;
        if n > left { n := left; }
        var base := 4096 * bankRegister + win;
        assert base == off;
        forall i | 0 <= i < n { vram[base + i] := src[at + i]; }
        forall o | off <= o < off + n ensures vram[o] == src[o - to] {
          assert vram[base + (o - off)] == src[at + (o - off)];
        }
        off, at, left := off + n, at + n, left - n;
      }
    }

    /** Copies a linear range line by line.  Ranges may overlap when the copy
        goes downwards. */
    method Copy(dst: nat, src: nat, count: nat)
      requires Valid() && src + count <= MEMORY && dst + count <= MEMORY
      requires dst <= src || src + count <= dst
      modifies this, vram, bounce
      ensures Valid()
      ensures Moved(old(vram[..]), vram[..], dst, src, count)
    {
      hide Moved;
      ghost var v0 := vram[..];
      var done: nat, left: nat := 0, count;
      MovedNone(v0, dst, src);
      while left > 0
        invariant Valid() && done + left == count && Moved(v0, vram[..], dst, src, done)
        decreases left
      {
        var n := if left > WIDTH then WIDTH else left;
        ghost var v1 := vram[..];
        CopyLine(dst + done, src + done, n);
        MovedMore(v0, v1, vram[..], dst, src, done, n);
        done, left := done + n, left - n;
      }
    }

    /** Copies at most one screen line through the bounce buffer. */
    method CopyLine(dst: nat, src: nat, n: nat)
      requires Valid() && n <= WIDTH && src + n <= MEMORY && dst + n <= MEMORY
      modifies this, vram, bounce
      ensures Valid()
      ensures Moved(old(vram[..]), vram[..], dst, src, n)
    {
      FbRead(src, bounce, n);
      FbWrite(dst, bounce, n);
    }

    /** Draws a horizontal run of pixels. */
    method HLine(x: int, y: int, w: int, color: byte)
      requires Valid()
      modifies this, vram
      ensures Valid()
      ensures forall o :: 0 <= o < MEMORY ==>
                vram[o] == if o < TOTAL && o / WIDTH == y && x <= o % WIDTH < x + w then color else old(vram[o])
    {
      var i := 0;
      while i < w
        invariant Valid() && (0 <= i <= w || (w < 0 && i == 0))
        invariant forall o :: 0 <= o < MEMORY ==>
                    vram[o] == if o < TOTAL && o / WIDTH == y && x <= o % WIDTH < x + i then color else old(vram[o])
      {
        ghost var before := vram[..];
        PutPixel(x + i, y, color);
        forall o | 0 <= o < MEMORY
          ensures vram[o] == if o < TOTAL && o / WIDTH == y && x <= o % WIDTH < x + i + 1 then color else old(vram[o])
        {
          PixelPlace(x + i, y, o);
          assert before[o] == if o < TOTAL && o / WIDTH == y && x <= o % WIDTH < x + i then color else old(vram[o]);
        }
        i := i + 1;
      }
    }

    method FillRect(x: int, y: int, w: int, h: int, color: byte)
      requires Valid()
      modifies this, vram
      ensures Valid()
      ensures forall o :: 0 <= o < MEMORY ==>
                vram[o] == if o < TOTAL && y <= o / WIDTH < y + h && x <= o % WIDTH < x + w then color else old(vram[o])
    {
      var row := 0;
      while row < h
        invariant Valid() && (0 <= row <= h || (h < 0 && row == 0))
        invariant forall o :: 0 <= o < MEMORY ==>
                    vram[o] == if o < TOTAL && y <= o / WIDTH < y + row && x <= o % WIDTH < x + w then color
                    else old(vram[o])
      {
        HLine(x, y + row, w, color);
        row := row + 1;
      }
    }
  }

  /** Every offset is the place of exactly one pixel. */
  lemma PixelPlace(x: int, y: int, o: nat)
    ensures 0 <= x < WIDTH && 0 <= y < HEIGHT && o == y * WIDTH + x <==>
            o < TOTAL && o / WIDTH == y && o % WIDTH == x
  {
  }
}
