/** Small types shared by the models: an optional value, a value or the
 *  error message the original code returns instead, and the bounded-grid
 *  suffix both setrule implementations append to their rule name. */
module Outcomes {
  datatype Option<T> = None | Some(value: T)

  datatype Result<T> = Ok(value: T) | Err(msg: string)

  /** The canonical suffix of the grid: what setgridsize reports for the text
   *  after a colon (grid), empty for an unbounded universe.  setgridsize and
   *  canonicalsuffix belong to the universe, which is not part of this
   *  model, so grid is their answer passed in. */
  function GridSuffix(rule: string, grid: Result<string>): string {
    if ':' in rule && grid.Ok? then grid.value else ""
  }
}
