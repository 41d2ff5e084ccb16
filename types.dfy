/** Values shared by every part of the model: optional values, the errors the
    core raises, results that carry either a value or one of those errors, and
    integer ranges standing for Python `range` objects. */
module Types {

  datatype Option<T> = None | Some(value: T)

  /** Why an `InvalidAddressError` was raised. */
  datatype AddressFault =
    | PortNotNumber(text: string)   // `int(port)` raised ValueError
    | PortOutOfRange(number: int)   // the port is not in VALID_PORTS
    | NoAddressFound                // the host reported no IPv4 address

  /** The exceptions the core lets escape. */
  datatype Error =
    | InvalidAddressError(fault: AddressFault)
    | IndexError          // `pop` on the empty port pool
    | UnboundLocalError   // `sorter` read its loop variable with no preference patterns
    | ValueError          // `min` of an empty VALID_PORTS, while building the out-of-range message

  datatype Result<T> = Ok(value: T) | Err(error: Error)

  /** A Python `range(start, stop)` with step 1. */
  datatype PortRange = PortRange(start: int, stop: int) {

    predicate Contains(p: int) {
      start <= p < stop
    }

    /** `min` and `max` of the range raise ValueError exactly when this holds. */
    predicate IsEmpty() {
      stop <= start
    }

    /** `list(range(start, stop))`: every member once, in increasing order. */
    function Elements(): (s: seq<int>)
      ensures |s| == if start < stop then stop - start else 0
      ensures forall p :: p in s <==> Contains(p)
      ensures forall p :: multiset(s)[p] <= 1
      decreases stop - start
    {
      if stop <= start then []
      else
        var rest := PortRange(start + 1, stop).Elements();
        assert start !in rest;
        assert multiset([start] + rest) == multiset{start} + multiset(rest);
        [start] + rest
    }
  }

  /** `range(65536)`, the default range of `is_valid_port`. */
  const AllPorts := PortRange(0, 65536)
}
