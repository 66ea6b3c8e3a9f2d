/** CommonUtils.kt: how many pages to prefetch, chosen from the free memory
    and the page count, and a small pool of reusable bitmaps. */
module CommonUtils {
  import opened Wrappers

  const MIB: int := 1024 * 1024
  const GIB: int := 1024 * MIB

  /** `calculateDynamicPrefetchCount`, with `getAvailableMemory(context)` in
      `availableMemory` and the renderer's page count in `pageCount`. */
  function CalculateDynamicPrefetchCount(availableMemory: int, pageCount: int): (n: int)
    ensures n == 3 || n == 5 || n == 10
    ensures n == 10 <==> availableMemory > GIB && pageCount < 100
    ensures n == 5 <==> !(availableMemory > GIB && pageCount < 100) && availableMemory > 512 * MIB && pageCount < 200
  {
    if availableMemory > GIB && pageCount < 100 then 10
    else if availableMemory > 512 * MIB && pageCount < 200 then 5
    else 3
  }

  /** More free memory or fewer pages never lowers the prefetch count. */
  lemma PrefetchCountMonotone(m1: int, p1: int, m2: int, p2: int)
    requires m1 <= m2 && p2 <= p1
    ensures CalculateDynamicPrefetchCount(m1, p1) <= CalculateDynamicPrefetchCount(m2, p2)
  {
  }

  /** An `android.graphics.Bitmap`, as far as the pool looks at it. */
  class Bitmap {
    const width: int
    const height: int
    var isRecycled: bool

    /** `Bitmap.createBitmap(width, height, ARGB_8888)`. */
    constructor (width: int, height: int)
      requires width > 0 && height > 0
      ensures this.width == width && this.height == height && !isRecycled
    {
      this.width := width;
      this.height := height;
      isRecycled := false;
    }

    /** `bitmap.recycle()`. */
    method Recycle()
      modifies this
      ensures isRecycled
    {
      isRecycled := true;
    }
  }

  /** The pool holds at most this many bitmaps. */
  const POOL_LIMIT: nat := 10

  /** A pooled bitmap can serve a request when it is alive and of the exact size. */
  predicate Matches(b: Bitmap, width: int, height: int)
    reads b
  {
    !b.isRecycled && b.width == width && b.height == height
  }

  /** The position of the first bitmap in `s` that can serve the request, or |s|. */
  function FirstMatch(s: seq<Bitmap>, width: int, height: int): (k: nat)
    reads s
    ensures k <= |s|
    ensures k < |s| ==> Matches(s[k], width, height)
    ensures forall j :: 0 <= j < k ==> !Matches(s[j], width, height)
  {
    if s == [] then 0
    else if Matches(s[0], width, height) then 0
    else 1 + FirstMatch(s[1..], width, height)
  }

  /** `CommonUtils.BitmapPool`. */
  class BitmapPool {
    var pool: seq<Bitmap>

    ghost predicate Valid()
      reads this
    {
      |pool| <= POOL_LIMIT
    }

    constructor ()
      ensures Valid() && pool == []
    {
      pool := [];
    }

    /** `getBitmap(width, height)`: the first matching pooled bitmap is taken out
        of the pool, the others keeping their order; without one, a new bitmap
        is made and the pool is unchanged. None stands for the
        IllegalArgumentException `createBitmap` throws for a size that is
        not positive. */
    method GetBitmap(width: int, height: int) returns (r: Option<Bitmap>)
      requires Valid()
      modifies this
      ensures Valid()
      ensures var k := old(FirstMatch(pool, width, height));
              if k < |old(pool)| then
                r == Some(old(pool)[k]) && pool == old(pool)[..k] + old(pool)[k + 1..]
              else
                && pool == old(pool)
                && (r.Some? <==> width > 0 && height > 0)
                && (r.Some? ==> fresh(r.value))
      ensures r.Some? ==> r.value.width == width && r.value.height == height && !r.value.isRecycled
    {
      var i := 0;
      while i < |pool|
        invariant 0 <= i <= |pool|
        invariant pool == old(pool)
        invariant forall j :: 0 <= j < i ==> !Matches(pool[j], width, height)
      {
        var bitmap := pool[i];
        if !bitmap.isRecycled && bitmap.width == width && bitmap.height == height {
          FirstMatchAt(pool, width, height, i);
          pool := pool[..i] + pool[i + 1..];
          return Some(bitmap);
        }
        i := i + 1;
      }
      FirstMatchAt(pool, width, height, i);
      if width > 0 && height > 0 {
        var b := new Bitmap(width, height);
        r := Some(b);
      } else {
        r := None;
      }
    }

    /** `recycleBitmap(bitmap)`: a live bitmap goes back to the end of the pool
        while there is room, and is recycled otherwise; a recycled one is ignored. */
    method RecycleBitmap(bitmap: Bitmap)
      requires Valid()
      modifies this, bitmap
      ensures Valid()
      ensures old(bitmap.isRecycled) ==> pool == old(pool) && bitmap.isRecycled
      ensures !old(bitmap.isRecycled) && |old(pool)| < POOL_LIMIT ==> pool == old(pool) + [bitmap] && !bitmap.isRecycled
      ensures !old(bitmap.isRecycled) && |old(pool)| >= POOL_LIMIT ==> pool == old(pool) && bitmap.isRecycled
    {
      if !bitmap.isRecycled {
        if |pool| < POOL_LIMIT {
          pool := pool + [bitmap];
        } else {
          bitmap.Recycle();
        }
      }
    }
  }

  /** The first matching position is the first position that matches. */
  lemma FirstMatchAt(s: seq<Bitmap>, width: int, height: int, i: nat)
    requires i <= |s|
    requires forall j :: 0 <= j < i ==> !Matches(s[j], width, height)
    requires i < |s| ==> Matches(s[i], width, height)
    ensures FirstMatch(s, width, height) == i
  {
  }
}
