/** The smaller and the larger of two reals. */
module Extrema {
  function Min(a: real, b: real): real { if b < a then b else a }

  function Max(a: real, b: real): real { if b > a then b else a }
}
