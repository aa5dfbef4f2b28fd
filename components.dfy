/**
 * Values both services store for the view layer without interpreting them.
 */
module Components {

  /** The runtime type of the component an overlay renders, kept only as a tag. */
  datatype ComponentType = ComponentType(name: string)

  /**
   * The parameter dictionary handed to the component. A C# Dictionary is a
   * reference, so it is kept as an identity handle and compared as one.
   */
  datatype Parameters = Parameters(handle: nat)
}
