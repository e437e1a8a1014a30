/** What a mark-and-sweep allocator is to its clients: the objects that are live, and those among all
    objects whose reachable bit is set. */
module Pools {

  datatype Pool<!T(==)> = Pool(live: set<T>, marked: set<T>) {

    /** Before a mark phase. Bits of slots that are not live are left as they are. */
    function UnmarkAll(): Pool<T> {
      Pool(live, marked - live)
    }

    function Mark(o: T): Pool<T> {
      Pool(live, marked + {o})
    }

    /** After a mark phase. */
    function Sweep(): Pool<T> {
      Pool(live * marked, marked)
    }
  }
}
