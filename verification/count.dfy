/**
 * The unit-count utility used by the library's tests: every candidate gains
 * 1 and every addition raises the value by 1.
 */
module CountUtility {
  import opened GistTypes

  class CountState {
    var value: real

    constructor Init()
      ensures value == 0.0
    {
      value := 0.0;
    }

    /** Every candidate is worth one more unit. */
    method Gain(c: Candidate) returns (g: real)
      ensures g == 1.0
    {
      g := 1.0;
    }

    method Add(c: Candidate)
      modifies this
      ensures value == old(value) + 1.0
    {
      value := value + 1.0;
    }

    function Value(): real
      reads this
    {
      value
    }
  }
}
