/** How a rater stands to the person rated. */
module X360Relations {
  datatype Relation = Self | Manager | Peer | Report
}
