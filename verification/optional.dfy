/** An optional value, used where the solver reports "no direction" and where
    `std::vector::at` would throw `std::out_of_range`. */
module Optional {

  datatype Option<+T> = None | Some(value: T)

}
