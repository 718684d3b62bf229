/** Character classes of the patterns the program matches texts with. */
module Characters {
  /** White space: what `\s` matches and `strip` takes off. */
  predicate Space(c: char) {
    var n := c as int;
    || 9 <= n <= 13 || 28 <= n <= 32 || n == 133 || n == 160 || n == 5760
    || 8192 <= n <= 8202 || n == 8232 || n == 8233 || n == 8239 || n == 8287 || n == 12288
  }
}
